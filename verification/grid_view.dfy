/** The timeline editing engine of the grid view (the current revision):
    zoom levels, interval intersection, the overlap-resolution pass that lets
    the edited cell win, grid quantization, pixel/time conversion, the pinch
    zoom state machine, cell selection, the drag handlers and the measure
    label counter. Delegate calls are recorded, in order, in `events`. */
module Grid {
  import opened Base

  type Id = string

  // ---------------------------------------------------------------------
  // Zoom levels

  datatype ZoomLevel = Bar | Beat | Subbeat

  function ZoomRaw(z: ZoomLevel): nat
  {
    match z
    case Bar => 0
    case Beat => 1
    case Subbeat => 2
  }

  /** `RBZoomLevel(rawValue:)`: nothing for a raw value without a case. */
  function ZoomFromRaw(n: int): (r: Option<ZoomLevel>)
    ensures r.Some? <==> 0 <= n <= 2
    ensures r.Some? ==> ZoomRaw(r.value) == n
  {
    if n == 0 then Some(Bar) else if n == 1 then Some(Beat) else if n == 2 then Some(Subbeat) else None
  }

  /** `zoomIn`: the next finer level, nothing past `subbeat`. */
  function ZoomIn(z: ZoomLevel): (r: Option<ZoomLevel>)
    ensures r.None? <==> z == Subbeat
    ensures r.Some? ==> ZoomRaw(r.value) == ZoomRaw(z) + 1
  {
    ZoomFromRaw(ZoomRaw(z) + 1)
  }

  /** `zoomOut`: the next coarser level, nothing past `bar`. */
  function ZoomOut(z: ZoomLevel): (r: Option<ZoomLevel>)
    ensures r.None? <==> z == Bar
    ensures r.Some? ==> ZoomRaw(r.value) + 1 == ZoomRaw(z)
  {
    ZoomFromRaw(ZoomRaw(z) - 1)
  }

  /** Zooming in and then out (or out and then in) returns to the same level. */
  lemma ZoomInOutInverse(z: ZoomLevel)
    ensures ZoomIn(z).Some? ==> ZoomOut(ZoomIn(z).value) == Some(z)
    ensures ZoomOut(z).Some? ==> ZoomIn(ZoomOut(z).value) == Some(z)
  {
  }

  /** `multiplier(timeSignature:)`: grid columns per bar at a level. */
  function Multiplier(z: ZoomLevel, beats: int): int
  {
    match z
    case Bar => 1
    case Beat => beats
    case Subbeat => beats * 4
  }

  /** A bar has one column at `bar`; every finer level multiplies the columns
      per bar by the beat count (bar to beat) or by four (beat to sub-beat). */
  lemma MultiplierSteps(z: ZoomLevel, beats: int)
    requires beats > 0
    ensures Multiplier(z, beats) >= 1
    ensures z == Bar ==> Multiplier(z, beats) == 1
    ensures ZoomIn(z).Some? ==>
      Multiplier(ZoomIn(z).value, beats) == Multiplier(z, beats) * (if z == Bar then beats else 4)
  {
  }

  // ---------------------------------------------------------------------
  // Cells and events

  /** A cell view: position and duration in bars, and its selection flag.
      Cell views are distinct objects; `id` stands for their identity. */
  datatype GridCell = GridCell(id: Id, position: real, duration: real, isSelected: bool)

  function End(c: GridCell): real
  {
    c.position + c.duration
  }

  predicate DistinctIds(cs: seq<GridCell>)
  {
    forall i, j :: 0 <= i < |cs| && 0 <= j < |cs| && i != j ==> cs[i].id != cs[j].id
  }

  /** `firstIndex(of:)`: the first cell with the given identity. */
  function IndexOfId(cs: seq<GridCell>, id: Id): (r: Option<nat>)
    ensures r.Some? ==> r.value < |cs| && cs[r.value].id == id
    ensures r.Some? ==> forall j :: 0 <= j < r.value ==> cs[j].id != id
    ensures r.None? ==> forall j :: 0 <= j < |cs| ==> cs[j].id != id
  {
    if |cs| == 0 then None
    else if cs[0].id == id then Some(0)
    else
      var rest := IndexOfId(cs[1..], id);
      if rest.Some? then Some(rest.value + 1) else None
  }

  /** With distinct identities the first match is the only match. */
  lemma IndexOfIdUnique(cs: seq<GridCell>, i: nat)
    requires DistinctIds(cs) && i < |cs|
    ensures IndexOfId(cs, cs[i].id) == Some(i)
  {
  }

  /** Cells with the same identities, index by index, give the same first
      index for every identity. */
  lemma IndexOfIdSameIds(a: seq<GridCell>, b: seq<GridCell>, id: Id)
    requires |a| == |b| && forall i :: 0 <= i < |a| ==> a[i].id == b[i].id
    ensures IndexOfId(a, id) == IndexOfId(b, id)
  {
  }

  /** Taking one cell out keeps the identities distinct. */
  lemma RemovedDistinct(cs: seq<GridCell>, index: nat)
    requires DistinctIds(cs) && index < |cs|
    ensures DistinctIds(cs[..index] + cs[index + 1..])
  {
    var r := cs[..index] + cs[index + 1..];
    forall i | 0 <= i < |r|
      ensures r[i] == cs[if i < index then i else i + 1]
    {
    }
  }

  /** The drag direction tag. */
  datatype OverlapState = Resize | MoveLeft | MoveRight

  /** Delegate calls, in the order the view makes them. */
  datatype GridEvent =
    | DidUpdate(cell: GridCell, index: int)
    | DidDelete(cell: GridCell, index: int)
    | DidSelect(cell: GridCell, index: int)
    | DidUnselectCells
    | DidUpdatePlayhead
    | DidUpdateRangehead(withPanGesture: bool)
    | DidMoveCell
    | DidResizeCell
    | DidQuantize

  // ---------------------------------------------------------------------
  // Intersection

  /** `intersects(lhs:rhs:)`: half-open intervals overlap; cells that start
      at the same position always intersect. */
  predicate Intersects(lhs: GridCell, rhs: GridCell)
  {
    if lhs.position < rhs.position then End(lhs) > rhs.position
    else if lhs.position > rhs.position then End(rhs) > lhs.position
    else true
  }

  /** Intersection is symmetric, holds for equal starts, and fails for cells
      that only touch end to start. */
  lemma IntersectsFacts(a: GridCell, b: GridCell)
    ensures Intersects(a, b) <==> Intersects(b, a)
    ensures a.position == b.position ==> Intersects(a, b)
    ensures a.position < b.position && End(a) == b.position ==> !Intersects(a, b)
    ensures a.position != b.position && a.duration >= 0.0 && b.duration >= 0.0 ==>
      (Intersects(a, b) <==> a.position < End(b) && b.position < End(a))
  {
  }

  // ---------------------------------------------------------------------
  // Overlap resolution (fixOverlaps), one cell at a time

  /** The edited cell `e` strictly contains `c` on both ends. */
  predicate Contains(e: GridCell, c: GridCell)
  {
    e.position < c.position && End(e) > End(c)
  }

  /** The direction tag used when none is set. */
  function EffectiveState(st: Option<OverlapState>): OverlapState
  {
    if st.Some? then st.value else Resize
  }

  /** Whether the trim branch for direction `st` fires on `c`. */
  predicate Trims(e: GridCell, st: OverlapState, c: GridCell)
  {
    if st == MoveLeft then End(c) > e.position else End(e) > c.position
  }

  /** `c` after the trim for direction `st`. */
  function Adjusted(e: GridCell, st: OverlapState, c: GridCell): (a: GridCell)
    ensures a.id == c.id && a.isSelected == c.isSelected
    ensures !Trims(e, st, c) ==> a == c
    ensures Trims(e, st, c) && st != MoveLeft ==> a.position == End(e) && End(a) == End(c)
    ensures Trims(e, st, c) && st == MoveLeft ==> a.position == c.position && End(a) == e.position
  {
    if !Trims(e, st, c) then c
    else if st == MoveLeft then c.(duration := e.position - c.position)
    else
      var moved := c.(position := End(e));
      moved.(duration := c.duration - (moved.position - c.position))
  }

  /** What becomes of cell `c` when `e` is the edited cell: nothing for `e`
      itself and for cells it does not intersect; deletion when `e` contains
      it or when the trim leaves no positive duration; the trimmed cell
      otherwise. */
  function Outcome(e: GridCell, st: OverlapState, c: GridCell, isEdited: bool): (r: seq<GridCell>)
    ensures |r| <= 1
    ensures forall a :: a in r ==> a.id == c.id
  {
    if isEdited || !Intersects(e, c) then [c]
    else if Contains(e, c) then []
    else
      var a := Adjusted(e, st, c);
      if a.duration <= 0.0 then [] else [a]
  }

  /** The delegate calls made for cell `c`, which sits at live index `at`. */
  function OutcomeEvents(e: GridCell, st: OverlapState, c: GridCell, isEdited: bool, at: nat): seq<GridEvent>
  {
    if isEdited || !Intersects(e, c) then []
    else if Contains(e, c) then [DidDelete(c, at)]
    else
      var a := Adjusted(e, st, c);
      (if Trims(e, st, c) then [DidUpdate(a, at)] else []) +
      (if a.duration <= 0.0 then [DidDelete(a, at)] else [])
  }

  /** Every call made for `c` is an update or a deletion of `c`, at its live index. */
  lemma OutcomeEventsConcern(e: GridCell, st: OverlapState, c: GridCell, isEdited: bool, at: nat)
    ensures forall ev :: ev in OutcomeEvents(e, st, c, isEdited, at) ==>
      (ev.DidUpdate? || ev.DidDelete?) && ev.cell.id == c.id && ev.index == at
  {
  }

  /** The cells that come out of the first `k` input cells, in order. */
  function Resolved(e: GridCell, st: OverlapState, cs: seq<GridCell>, ei: int, k: nat): seq<GridCell>
    requires k <= |cs|
  {
    if k == 0 then [] else Resolved(e, st, cs, ei, k - 1) + Outcome(e, st, cs[k - 1], k - 1 == ei)
  }

  /** The delegate calls made while resolving the first `k` input cells. */
  function ResolvedEvents(e: GridCell, st: OverlapState, cs: seq<GridCell>, ei: int, k: nat): seq<GridEvent>
    requires k <= |cs|
  {
    if k == 0 then []
    else
      ResolvedEvents(e, st, cs, ei, k - 1) +
      OutcomeEvents(e, st, cs[k - 1], k - 1 == ei, |Resolved(e, st, cs, ei, k - 1)|)
  }

  /** One more input cell appends its outcome and its calls. */
  lemma ResolvedStep(e: GridCell, st: OverlapState, cs: seq<GridCell>, ei: int, k: nat)
    requires k < |cs|
    ensures Resolved(e, st, cs, ei, k + 1) == Resolved(e, st, cs, ei, k) + Outcome(e, st, cs[k], k == ei)
    ensures ResolvedEvents(e, st, cs, ei, k + 1) ==
      ResolvedEvents(e, st, cs, ei, k) + OutcomeEvents(e, st, cs[k], k == ei, |Resolved(e, st, cs, ei, k)|)
  {
  }

  /** `fixOverlaps` has something to do: there are cells and the editing
      index names one of them. */
  predicate HasEditedCell(cs: seq<GridCell>, editing: Option<int>)
  {
    |cs| > 0 && editing.Some? && 0 <= editing.value < |cs|
  }

  /** The cells after `fixOverlaps` with edited index `editing`. */
  function FixedCells(cs: seq<GridCell>, editing: Option<int>, st: Option<OverlapState>): seq<GridCell>
  {
    if !HasEditedCell(cs, editing) then cs
    else Resolved(cs[editing.value], EffectiveState(st), cs, editing.value, |cs|)
  }

  /** The delegate calls `fixOverlaps` makes. */
  function FixEvents(cs: seq<GridCell>, editing: Option<int>, st: Option<OverlapState>): seq<GridEvent>
  {
    if !HasEditedCell(cs, editing) then []
    else ResolvedEvents(cs[editing.value], EffectiveState(st), cs, editing.value, |cs|)
  }

  // ---------------------------------------------------------------------
  // Properties of overlap resolution

  /** Resolving more input cells only appends to the output. */
  lemma ResolvedGrows(e: GridCell, st: OverlapState, cs: seq<GridCell>, ei: int, k: nat, m: nat)
    requires k <= m <= |cs|
    ensures Resolved(e, st, cs, ei, k) <= Resolved(e, st, cs, ei, m)
    ensures ResolvedEvents(e, st, cs, ei, k) <= ResolvedEvents(e, st, cs, ei, m)
  {
    ResolvedCellsGrow(e, st, cs, ei, k, m);
    ResolvedEventsGrow(e, st, cs, ei, k, m);
  }

  /** Resolving more input cells only appends output cells. */
  lemma {:induction false} ResolvedCellsGrow(e: GridCell, st: OverlapState, cs: seq<GridCell>, ei: int, k: nat, m: nat)
    requires k <= m <= |cs|
    ensures Resolved(e, st, cs, ei, k) <= Resolved(e, st, cs, ei, m)
    decreases m
  {
    if k < m {
      ResolvedCellsGrow(e, st, cs, ei, k, m - 1);
      ghost var prev := Resolved(e, st, cs, ei, m - 1);
      ghost var last := Outcome(e, st, cs[m - 1], m - 1 == ei);
      assert Resolved(e, st, cs, ei, m) == prev + last;
      PrefixExtends(Resolved(e, st, cs, ei, k), prev, last);
    }
  }

  /** Resolving more input cells only appends delegate calls. */
  lemma {:induction false} ResolvedEventsGrow(e: GridCell, st: OverlapState, cs: seq<GridCell>, ei: int, k: nat, m: nat)
    requires k <= m <= |cs|
    ensures ResolvedEvents(e, st, cs, ei, k) <= ResolvedEvents(e, st, cs, ei, m)
    decreases m
  {
    if k < m {
      ResolvedEventsGrow(e, st, cs, ei, k, m - 1);
      ghost var prev := ResolvedEvents(e, st, cs, ei, m - 1);
      ghost var last := OutcomeEvents(e, st, cs[m - 1], m - 1 == ei, |Resolved(e, st, cs, ei, m - 1)|);
      assert ResolvedEvents(e, st, cs, ei, m) == prev + last;
      PrefixExtends(ResolvedEvents(e, st, cs, ei, k), prev, last);
    }
  }

  /** A prefix of a sequence is a prefix of any extension of it. */
  lemma PrefixExtends<T>(a: seq<T>, b: seq<T>, c: seq<T>)
    requires a <= b
    ensures a <= b + c
  {
    assert (b + c)[..|a|] == b[..|a|];
  }

  /** Every output cell carries the identity of an input cell that was kept. */
  lemma {:induction false} ResolvedIdsFrom(e: GridCell, st: OverlapState, cs: seq<GridCell>, ei: int, k: nat)
    requires k <= |cs|
    ensures forall i :: 0 <= i < |Resolved(e, st, cs, ei, k)| ==>
      exists m :: 0 <= m < k && Resolved(e, st, cs, ei, k)[i].id == cs[m].id &&
                  Outcome(e, st, cs[m], m == ei) != []
  {
    if k > 0 {
      ResolvedIdsFrom(e, st, cs, ei, k - 1);
      var prev := Resolved(e, st, cs, ei, k - 1);
      var out := Outcome(e, st, cs[k - 1], k - 1 == ei);
      var r := Resolved(e, st, cs, ei, k);
      assert r == prev + out;
      forall i | 0 <= i < |r|
        ensures exists m :: 0 <= m < k && r[i].id == cs[m].id && Outcome(e, st, cs[m], m == ei) != []
      {
        if i < |prev| {
          assert r[i] == prev[i];
          var m :| 0 <= m < k - 1 && prev[i].id == cs[m].id && Outcome(e, st, cs[m], m == ei) != [];
          assert 0 <= m < k && r[i].id == cs[m].id && Outcome(e, st, cs[m], m == ei) != [];
        } else {
          assert r[i] in out;
          assert 0 <= k - 1 < k && r[i].id == cs[k - 1].id && out != [];
        }
      }
    } else {
      assert Resolved(e, st, cs, ei, k) == [];
    }
  }

  /** Resolution keeps identities distinct. */
  lemma {:induction false} ResolvedDistinct(e: GridCell, st: OverlapState, cs: seq<GridCell>, ei: int, k: nat)
    requires k <= |cs| && DistinctIds(cs)
    ensures DistinctIds(Resolved(e, st, cs, ei, k))
  {
    if k > 0 {
      ResolvedDistinct(e, st, cs, ei, k - 1);
      ResolvedIdsFrom(e, st, cs, ei, k - 1);
      var prev := Resolved(e, st, cs, ei, k - 1);
      var out := Outcome(e, st, cs[k - 1], k - 1 == ei);
      forall i | 0 <= i < |prev|
        ensures prev[i].id != cs[k - 1].id
      {
        var m :| 0 <= m < k - 1 && prev[i].id == cs[m].id && Outcome(e, st, cs[m], m == ei) != [];
      }
    }
  }

  /** The edited cell is neither changed nor removed: it sits, unchanged, right
      after whatever came out of the cells before it. */
  lemma EditedCellKept(e: GridCell, st: OverlapState, cs: seq<GridCell>, ei: nat)
    requires ei < |cs| && e == cs[ei]
    ensures |Resolved(e, st, cs, ei, ei)| < |Resolved(e, st, cs, ei, |cs|)|
    ensures Resolved(e, st, cs, ei, |cs|)[|Resolved(e, st, cs, ei, ei)|] == e
  {
    ResolvedGrows(e, st, cs, ei, ei + 1, |cs|);
  }

  /** A cell other than the edited one never comes out intersecting the
      edited cell, provided the edited cell has a positive duration. */
  lemma OutcomeClear(e: GridCell, st: OverlapState, c: GridCell)
    requires e.duration > 0.0
    ensures forall a :: a in Outcome(e, st, c, false) ==> !Intersects(e, a)
  {
  }

  /** After resolution no cell but the edited one intersects the edited
      cell, provided the edited cell has a positive duration. */
  lemma {:induction false} ResolvedClear(e: GridCell, st: OverlapState, cs: seq<GridCell>, ei: nat, k: nat)
    requires ei < |cs| && e == cs[ei] && e.duration > 0.0 && k <= |cs|
    ensures forall i :: 0 <= i < |Resolved(e, st, cs, ei, k)| && (k <= ei || i != |Resolved(e, st, cs, ei, ei)|) ==>
      !Intersects(e, Resolved(e, st, cs, ei, k)[i])
  {
    if k > 0 {
      ResolvedClear(e, st, cs, ei, k - 1);
      var prev := Resolved(e, st, cs, ei, k - 1);
      var r := Resolved(e, st, cs, ei, k);
      OutcomeClear(e, st, cs[k - 1]);
      if k - 1 == ei {
        assert |prev| == |Resolved(e, st, cs, ei, ei)|;
      }
      forall i | 0 <= i < |r| && (k <= ei || i != |Resolved(e, st, cs, ei, ei)|)
        ensures !Intersects(e, r[i])
      {
        if i < |prev| {
          assert r[i] == prev[i];
          if k - 1 > ei {
            ResolvedGrows(e, st, cs, ei, ei, k - 1);
          }
        } else {
          assert r[i] in Outcome(e, st, cs[k - 1], k - 1 == ei);
        }
      }
    }
  }

  /** `fixOverlaps` leaves the edited cell in place and unchanged, and no
      other cell intersecting it, when the edited cell has positive duration. */
  lemma FixOverlapsClearsEditedCell(cs: seq<GridCell>, ei: nat, st: Option<OverlapState>)
    requires ei < |cs| && cs[ei].duration > 0.0
    ensures var r := FixedCells(cs, Some(ei), st);
      exists p :: 0 <= p < |r| && r[p] == cs[ei] &&
        forall i :: 0 <= i < |r| && i != p ==> !Intersects(cs[ei], r[i])
  {
    var e := cs[ei];
    var s := EffectiveState(st);
    EditedCellKept(e, s, cs, ei);
    ResolvedClear(e, s, cs, ei, |cs|);
    var p := |Resolved(e, s, cs, ei, ei)|;
    assert FixedCells(cs, Some(ei), st)[p] == e;
  }

  /** The delegate calls that concern cell `id`. */
  function EventsAbout(evs: seq<GridEvent>, id: Id): (r: seq<GridEvent>)
    ensures |r| <= |evs|
  {
    if evs == [] then []
    else
      var head := evs[0];
      var rest := EventsAbout(evs[1..], id);
      if (head.DidUpdate? || head.DidDelete? || head.DidSelect?) && head.cell.id == id then [head] + rest else rest
  }

  lemma {:induction false} EventsAboutAppend(a: seq<GridEvent>, b: seq<GridEvent>, id: Id)
    ensures EventsAbout(a + b, id) == EventsAbout(a, id) + EventsAbout(b, id)
  {
    if a != [] {
      assert (a + b)[0] == a[0];
      assert (a + b)[1..] == a[1..] + b;
      EventsAboutAppend(a[1..], b, id);
    } else {
      assert a + b == b;
    }
  }

  lemma {:induction false} EventsAboutNone(evs: seq<GridEvent>, id: Id)
    requires forall ev :: ev in evs ==> (ev.DidUpdate? || ev.DidDelete?) && ev.cell.id != id
    ensures EventsAbout(evs, id) == []
  {
    if evs != [] {
      EventsAboutNone(evs[1..], id);
    }
  }

  /** No cell other than `cs[t]` carries its identity. */
  predicate UniqueAt(cs: seq<GridCell>, t: nat)
    requires t < |cs|
  {
    forall j :: 0 <= j < |cs| && j != t ==> cs[j].id != cs[t].id
  }

  /** Resolving a cell other than `cs[t]` adds no call about `cs[t]`. */
  lemma EventsAboutOtherStep(e: GridCell, st: OverlapState, cs: seq<GridCell>, ei: int, k: nat, t: nat)
    requires 0 < k <= |cs| && t < |cs| && k - 1 != t && UniqueAt(cs, t)
    ensures EventsAbout(ResolvedEvents(e, st, cs, ei, k), cs[t].id) ==
            EventsAbout(ResolvedEvents(e, st, cs, ei, k - 1), cs[t].id)
  {
    var prev := ResolvedEvents(e, st, cs, ei, k - 1);
    var last := OutcomeEvents(e, st, cs[k - 1], k - 1 == ei, |Resolved(e, st, cs, ei, k - 1)|);
    ResolvedStep(e, st, cs, ei, k - 1);
    EventsAboutAppend(prev, last, cs[t].id);
    OutcomeEventsConcern(e, st, cs[k - 1], k - 1 == ei, |Resolved(e, st, cs, ei, k - 1)|);
    EventsAboutNone(last, cs[t].id);
  }

  /** No call concerns `cs[t]` before it is reached. */
  lemma {:induction false} EventsAboutBefore(e: GridCell, st: OverlapState, cs: seq<GridCell>, ei: int, k: nat, t: nat)
    requires k <= t < |cs| && UniqueAt(cs, t)
    ensures EventsAbout(ResolvedEvents(e, st, cs, ei, k), cs[t].id) == []
  {
    if k > 0 {
      EventsAboutBefore(e, st, cs, ei, k - 1, t);
      EventsAboutOtherStep(e, st, cs, ei, k, t);
    } else {
      assert ResolvedEvents(e, st, cs, ei, k) == [];
    }
  }

  /** Calls about `id` after a stretch that has none are those of what follows. */
  lemma EventsAboutAfterNone(prev: seq<GridEvent>, own: seq<GridEvent>, now: seq<GridEvent>, id: Id)
    requires now == prev + own && EventsAbout(prev, id) == []
    ensures EventsAbout(now, id) == EventsAbout(own, id)
  {
    EventsAboutAppend(prev, own, id);
    assert EventsAbout(prev, id) + EventsAbout(own, id) == EventsAbout(own, id);
  }

  /** The calls made on the turn of the loop that resolves `cs[t]`. */
  function OwnEvents(e: GridCell, st: OverlapState, cs: seq<GridCell>, ei: int, t: nat): seq<GridEvent>
    requires t < |cs|
  {
    OutcomeEvents(e, st, cs[t], t == ei, |Resolved(e, st, cs, ei, t)|)
  }

  /** Resolving `cs[t]` itself brings in exactly its own calls about it. */
  lemma EventsAboutOwn(e: GridCell, st: OverlapState, cs: seq<GridCell>, ei: int, t: nat)
    requires t < |cs| && UniqueAt(cs, t)
    ensures EventsAbout(ResolvedEvents(e, st, cs, ei, t + 1), cs[t].id) ==
            EventsAbout(OwnEvents(e, st, cs, ei, t), cs[t].id)
  {
    EventsAboutBefore(e, st, cs, ei, t, t);
    ResolvedStep(e, st, cs, ei, t);
    EventsAboutAfterNone(ResolvedEvents(e, st, cs, ei, t),
      OutcomeEvents(e, st, cs[t], t == ei, |Resolved(e, st, cs, ei, t)|),
      ResolvedEvents(e, st, cs, ei, t + 1), cs[t].id);
  }

  /** Resolving a later cell keeps the calls about `cs[t]` as they were. */
  lemma EventsAboutAfterStep(e: GridCell, st: OverlapState, cs: seq<GridCell>, ei: int, k: nat, t: nat)
    requires t < k - 1 && k <= |cs| && UniqueAt(cs, t)
    requires EventsAbout(ResolvedEvents(e, st, cs, ei, k - 1), cs[t].id) ==
             EventsAbout(OwnEvents(e, st, cs, ei, t), cs[t].id)
    ensures EventsAbout(ResolvedEvents(e, st, cs, ei, k), cs[t].id) ==
            EventsAbout(OwnEvents(e, st, cs, ei, t), cs[t].id)
  {
    EventsAboutOtherStep(e, st, cs, ei, k, t);
  }

  /** Once `cs[t]` is resolved, the calls about it are exactly its own. */
  lemma {:induction false} EventsAboutAfter(e: GridCell, st: OverlapState, cs: seq<GridCell>, ei: int, k: nat, t: nat)
    requires t < k <= |cs| && UniqueAt(cs, t)
    ensures EventsAbout(ResolvedEvents(e, st, cs, ei, k), cs[t].id) ==
            EventsAbout(OwnEvents(e, st, cs, ei, t), cs[t].id)
  {
    if k - 1 == t {
      EventsAboutOwn(e, st, cs, ei, t);
    } else {
      EventsAboutAfter(e, st, cs, ei, k - 1, t);
      EventsAboutAfterStep(e, st, cs, ei, k, t);
    }
  }

  /** A cell that the edited cell strictly contains is deleted: no cell with
      its identity survives, and exactly one delegate call concerns it, a
      deletion at its live index. */
  lemma ContainedCellDeleted(cs: seq<GridCell>, ei: nat, st: Option<OverlapState>, t: nat)
    requires ei < |cs| && t < |cs| && t != ei && DistinctIds(cs)
    requires Intersects(cs[ei], cs[t]) && Contains(cs[ei], cs[t])
    ensures forall c :: c in FixedCells(cs, Some(ei), st) ==> c.id != cs[t].id
    ensures EventsAbout(FixEvents(cs, Some(ei), st), cs[t].id) ==
      [DidDelete(cs[t], |Resolved(cs[ei], EffectiveState(st), cs, ei, t)|)]
  {
    var e := cs[ei];
    var s := EffectiveState(st);
    ResolvedIdsFrom(e, s, cs, ei, |cs|);
    var r := Resolved(e, s, cs, ei, |cs|);
    forall c | c in r
      ensures c.id != cs[t].id
    {
      var i :| 0 <= i < |r| && r[i] == c;
      var m :| 0 <= m < |cs| && r[i].id == cs[m].id && Outcome(e, s, cs[m], m == ei) != [];
    }
    EventsAboutAfter(e, s, cs, ei, |cs|, t);
    var at := |Resolved(e, s, cs, ei, t)|;
    assert OutcomeEvents(e, s, cs[t], false, at) == [DidDelete(cs[t], at)];
    assert EventsAbout([DidDelete(cs[t], at)], cs[t].id) == [DidDelete(cs[t], at)] by {
      assert [DidDelete(cs[t], at)][1..] == [];
    }
  }

  /** A cell the edited cell does not intersect comes out unchanged. */
  lemma UntouchedCellKept(cs: seq<GridCell>, ei: nat, st: Option<OverlapState>, t: nat)
    requires ei < |cs| && t < |cs| && !Intersects(cs[ei], cs[t])
    ensures var r := FixedCells(cs, Some(ei), st);
      var p := |Resolved(cs[ei], EffectiveState(st), cs, ei, t)|;
      p < |r| && r[p] == cs[t]
  {
    ResolvedGrows(cs[ei], EffectiveState(st), cs, ei, t + 1, |cs|);
  }

  // ---------------------------------------------------------------------
  // Quantization

  /** The grid step, in bars, that `quantize(zoomLevel:)` snaps to. */
  function QuantizeRange(level: int, beats: int): (r: real)
    requires beats > 0
    ensures r > 0.0
  {
    if level == 0 then 1.0
    else if level == 1 then 1.0 / beats as real
    else if level == 2 then 1.0 / beats as real / 4.0
    else 1.0
  }

  /** The step for a zoom level is exactly one grid column of that level. */
  lemma QuantizeStepIsOneColumn(z: ZoomLevel, beats: int)
    requires beats > 0
    ensures QuantizeRange(ZoomRaw(z), beats) * Multiplier(z, beats) as real == 1.0
  {
    if z == Subbeat {
      assert Multiplier(z, beats) as real == beats as real * 4.0;
    }
  }

  /** A position moved to the nearest multiple of `range`. */
  function Snap(x: real, range: real): real
    requires range > 0.0
  {
    RoundHalfAway(x / range) as real * range
  }

  /** A multiple of the step is already on the grid. */
  lemma SnapOfGridPoint(k: int, range: real)
    requires range > 0.0
    ensures Snap(k as real * range, range) == k as real * range
  {
    assert k as real * range / range == k as real;
    RoundOfInteger(k);
  }

  /** Snapping moves a position by at most half a step, and snapping twice
      is snapping once. */
  lemma SnapFacts(x: real, range: real)
    requires range > 0.0
    ensures -(range / 2.0) <= Snap(x, range) - x <= range / 2.0
    ensures Snap(Snap(x, range), range) == Snap(x, range)
  {
    var k := RoundHalfAway(x / range);
    assert Snap(x, range) == k as real * range;
    SnapOffset(x, range, k);
    SnapOfGridPoint(k, range);
  }

  /** The distance to the snapped position is the rounding error times the
      step. */
  lemma SnapOffset(x: real, range: real, k: int)
    requires range > 0.0 && k == RoundHalfAway(x / range)
    ensures -(range / 2.0) <= k as real * range - x <= range / 2.0
  {
    var q := x / range;
    assert x == q * range;
    var d := k as real - q;
    assert k as real * range - x == d * range;
    NonNegativeProduct(0.5 - d, range);
    NonNegativeProduct(d + 0.5, range);
  }

  /** The first quantize loop: every cell snapped to the grid. */
  function SnapAll(cs: seq<GridCell>, range: real): (r: seq<GridCell>)
    requires range > 0.0
    ensures |r| == |cs|
    ensures forall i :: 0 <= i < |cs| ==> r[i] == cs[i].(position := Snap(cs[i].position, range))
  {
    seq(|cs|, i requires 0 <= i < |cs| => cs[i].(position := Snap(cs[i].position, range)))
  }

  /** The update calls of the first quantize loop. */
  function SnapEvents(cs: seq<GridCell>): (r: seq<GridEvent>)
    ensures |r| == |cs|
    ensures forall i :: 0 <= i < |cs| ==> r[i] == DidUpdate(cs[i], i)
  {
    seq(|cs|, i requires 0 <= i < |cs| => DidUpdate(cs[i], i))
  }

  /** Snapping is idempotent on a whole track and keeps identities, order and
      durations. */
  lemma SnapAllIdempotent(cs: seq<GridCell>, range: real)
    requires range > 0.0
    ensures SnapAll(SnapAll(cs, range), range) == SnapAll(cs, range)
    ensures DistinctIds(cs) ==> DistinctIds(SnapAll(cs, range))
    ensures forall i :: 0 <= i < |cs| ==>
      SnapAll(cs, range)[i].id == cs[i].id && SnapAll(cs, range)[i].duration == cs[i].duration
  {
    forall i | 0 <= i < |cs|
      ensures SnapAll(SnapAll(cs, range), range)[i] == SnapAll(cs, range)[i]
    {
      SnapFacts(cs[i].position, range);
    }
  }

  /** The second quantize pass: `fixOverlaps` with each index below `k` in
      turn as the edited cell. */
  function FixSeriesCells(cs: seq<GridCell>, st: Option<OverlapState>, k: nat): seq<GridCell>
  {
    if k == 0 then cs else FixedCells(FixSeriesCells(cs, st, k - 1), Some(k - 1), st)
  }

  /** The delegate calls of that second pass. */
  function FixSeriesEvents(cs: seq<GridCell>, st: Option<OverlapState>, k: nat): seq<GridEvent>
  {
    if k == 0 then []
    else FixSeriesEvents(cs, st, k - 1) + FixEvents(FixSeriesCells(cs, st, k - 1), Some(k - 1), st)
  }

  /** One more pass of the series applies `fixOverlaps` once more. */
  lemma FixSeriesStep(cs: seq<GridCell>, st: Option<OverlapState>, k: nat)
    ensures FixSeriesCells(cs, st, k + 1) == FixedCells(FixSeriesCells(cs, st, k), Some(k), st)
    ensures FixSeriesEvents(cs, st, k + 1) ==
      FixSeriesEvents(cs, st, k) + FixEvents(FixSeriesCells(cs, st, k), Some(k), st)
  {
  }

  /** `fixOverlaps` never adds cells and keeps identities distinct. */
  lemma FixedCellsShape(cs: seq<GridCell>, editing: Option<int>, st: Option<OverlapState>)
    requires DistinctIds(cs)
    ensures DistinctIds(FixedCells(cs, editing, st))
    ensures |FixedCells(cs, editing, st)| <= |cs|
    ensures forall c :: c in FixedCells(cs, editing, st) ==> exists j :: 0 <= j < |cs| && cs[j].id == c.id
  {
    if HasEditedCell(cs, editing) {
      var e, s, ei := cs[editing.value], EffectiveState(st), editing.value;
      ResolvedDistinct(e, s, cs, ei, |cs|);
      ResolvedIdsFrom(e, s, cs, ei, |cs|);
      ResolvedLength(e, s, cs, ei, |cs|);
      var r := Resolved(e, s, cs, ei, |cs|);
      forall c | c in r
        ensures exists j :: 0 <= j < |cs| && cs[j].id == c.id
      {
        var i :| 0 <= i < |r| && r[i] == c;
        var m :| 0 <= m < |cs| && r[i].id == cs[m].id && Outcome(e, s, cs[m], m == ei) != [];
      }
    }
  }

  /** At most one output cell per input cell. */
  lemma {:induction false} ResolvedLength(e: GridCell, st: OverlapState, cs: seq<GridCell>, ei: int, k: nat)
    requires k <= |cs|
    ensures |Resolved(e, st, cs, ei, k)| <= k
  {
    if k > 0 {
      ResolvedLength(e, st, cs, ei, k - 1);
    }
  }

  /** The second quantize pass never adds cells, keeps identities distinct and
      brings in no identity that was not there before. */
  lemma {:induction false} FixSeriesShape(cs: seq<GridCell>, st: Option<OverlapState>, k: nat)
    requires DistinctIds(cs)
    ensures DistinctIds(FixSeriesCells(cs, st, k))
    ensures |FixSeriesCells(cs, st, k)| <= |cs|
    ensures forall c :: c in FixSeriesCells(cs, st, k) ==> exists j :: 0 <= j < |cs| && cs[j].id == c.id
  {
    if k > 0 {
      FixSeriesShape(cs, st, k - 1);
      var prev := FixSeriesCells(cs, st, k - 1);
      FixedCellsShape(prev, Some(k - 1), st);
      forall c | c in FixSeriesCells(cs, st, k)
        ensures exists j :: 0 <= j < |cs| && cs[j].id == c.id
      {
        var j :| 0 <= j < |prev| && prev[j].id == c.id;
        assert prev[j] in prev;
        var i :| 0 <= i < |cs| && cs[i].id == prev[j].id;
        assert cs[i].id == c.id;
      }
    }
  }

  // ---------------------------------------------------------------------
  // Pixel and time conversion

  /** `durationForTranslation`: a horizontal drag in points as a duration in
      bars at the current zoom. */
  function DurationForTranslation(t: real, measureWidth: real, z: ZoomLevel, beats: int): real
    requires measureWidth > 0.0 && beats > 0
  {
    MultiplierSteps(z, beats);
    t / (measureWidth * Multiplier(z, beats) as real)
  }

  /** The layout rule: a time in bars as a horizontal offset in points. */
  function PointsFor(d: real, measureWidth: real, z: ZoomLevel, beats: int): real
  {
    d * measureWidth * Multiplier(z, beats) as real
  }

  /** Converting a drag to bars and laying the result out gives the drag back,
      and the other way round. */
  lemma TranslationRoundTrip(t: real, d: real, measureWidth: real, z: ZoomLevel, beats: int)
    requires measureWidth > 0.0 && beats > 0
    ensures PointsFor(DurationForTranslation(t, measureWidth, z, beats), measureWidth, z, beats) == t
    ensures DurationForTranslation(PointsFor(d, measureWidth, z, beats), measureWidth, z, beats) == d
  {
    MultiplierSteps(z, beats);
    var m := Multiplier(z, beats) as real;
    var w := measureWidth * m;
    assert w > 0.0;
    ScaleCancels(t, d, w);
    assert PointsFor(t / w, measureWidth, z, beats) == t / w * measureWidth * m;
    assert t / w * measureWidth * m == t / w * w;
    assert PointsFor(d, measureWidth, z, beats) == d * w;
  }

  /** Dividing by a positive scale undoes multiplying by it, both ways. */
  lemma ScaleCancels(t: real, d: real, w: real)
    requires w > 0.0
    ensures t / w * w == t && d * w / w == d
  {
  }

  // ---------------------------------------------------------------------
  // Measure labels and count

  /** The label of column `i` (numbered from one, as the measure ruler shows). */
  function GridLabel(i: nat, z: ZoomLevel, beats: int): MeasureLabel
    requires beats > 0
  {
    match z
    case Bar => BarLabel(i + 1)
    case Beat => BeatLabel(i / beats + 1, i % beats + 1)
    case Subbeat => SubbeatLabel((i / 4) / beats + 1, (i / 4) % beats + 1, i % 4 + 1)
  }

  /** The label counter of `drawMeasure`: one sub-beat, beat or bar on. */
  function Tick(l: MeasureLabel, beats: int): MeasureLabel
  {
    match l
    case BarLabel(b) => BarLabel(b + 1)
    case BeatLabel(b, t) => if t + 1 > beats then BeatLabel(b + 1, 1) else BeatLabel(b, t + 1)
    case SubbeatLabel(b, t, s) =>
      if s + 1 <= 4 then SubbeatLabel(b, t, s + 1)
      else if t + 1 > beats then SubbeatLabel(b + 1, 1, 1)
      else SubbeatLabel(b, t + 1, 1)
  }

  /** The counter starts at the first label and ticking it gives the next
      column's label, so counting and the closed form agree. */
  lemma GridLabelTicks(i: nat, z: ZoomLevel, beats: int)
    requires beats > 0
    ensures GridLabel(0, z, beats) ==
      match z
      case Bar => BarLabel(1)
      case Beat => BeatLabel(1, 1)
      case Subbeat => SubbeatLabel(1, 1, 1)
    ensures GridLabel(i + 1, z, beats) == Tick(GridLabel(i, z, beats), beats)
  {
    DivModStep(i, beats);
    DivModStep(i, 4);
    DivModStep(i / 4, beats);
  }

  /** `layoutSubviews`: enough columns to reach one past the far-most cell end,
      one past the range head, and to fill the frame. */
  function MeasureCountFor(farMost: real, rangehead: real, frameWidth: real, measureWidth: real, multiplier: real): int
    requires measureWidth > 0.0
  {
    var cellPosition := Ceil(farMost * multiplier) + 1;
    var rangePosition := Ceil(rangehead * multiplier) + 1;
    var availableSpace := Ceil(frameWidth / measureWidth);
    if cellPosition >= rangePosition && cellPosition >= availableSpace then cellPosition
    else if rangePosition >= availableSpace then rangePosition
    else availableSpace
  }

  /** The column count that `layoutSubviews` asks for. */
  predicate CoversAll(n: int, farMost: real, rangehead: real, frameWidth: real, measureWidth: real, multiplier: real)
  {
    n as real >= farMost * multiplier + 1.0 &&
    n as real >= rangehead * multiplier + 1.0 &&
    n as real * measureWidth >= frameWidth
  }

  /** The measure count is the least column count that covers the cells, the
      range head and the frame. */
  lemma MeasureCountLeast(farMost: real, rangehead: real, frameWidth: real, measureWidth: real, multiplier: real, n: int)
    requires measureWidth > 0.0
    ensures CoversAll(MeasureCountFor(farMost, rangehead, frameWidth, measureWidth, multiplier),
                      farMost, rangehead, frameWidth, measureWidth, multiplier)
    ensures CoversAll(n, farMost, rangehead, frameWidth, measureWidth, multiplier) ==>
      MeasureCountFor(farMost, rangehead, frameWidth, measureWidth, multiplier) <= n
  {
    var m := MeasureCountFor(farMost, rangehead, frameWidth, measureWidth, multiplier);
    var q := frameWidth / measureWidth;
    assert q * measureWidth == frameWidth;
    assert Ceil(q) as real * measureWidth >= frameWidth by {
      assert Ceil(q) as real * measureWidth - q * measureWidth == (Ceil(q) as real - q) * measureWidth;
    }
    assert m as real * measureWidth >= frameWidth by {
      assert m >= Ceil(q);
      assert m as real * measureWidth - Ceil(q) as real * measureWidth == (m - Ceil(q)) as real * measureWidth;
    }
    if CoversAll(n, farMost, rangehead, frameWidth, measureWidth, multiplier) {
      assert n as real >= q by {
        assert n as real * measureWidth - q * measureWidth == (n as real - q) * measureWidth;
      }
    }
  }

  // ---------------------------------------------------------------------
  // Far-most and last cell ends

  /** The largest rounded-up cell end, or zero without cells. */
  function FarMostBar(cs: seq<GridCell>): (r: int)
    ensures cs == [] ==> r == 0
    ensures forall c :: c in cs ==> End(c) <= r as real
    ensures cs != [] ==> exists c :: c in cs && r == Ceil(End(c))
  {
    if cs == [] then 0
    else if |cs| == 1 then Ceil(End(cs[0]))
    else
      var rest := FarMostBar(cs[1..]);
      var here := Ceil(End(cs[0]));
      assert forall c :: c in cs ==> c == cs[0] || c in cs[1..];
      assert forall c :: c in cs[1..] ==> c in cs;
      if here >= rest then here else rest
  }

  /** `calculateFarMostCellPosition`: the far-most bar as a position. */
  function FarMostCellPosition(cs: seq<GridCell>): real
  {
    FarMostBar(cs) as real
  }

  /** `snapRangeheadToLastCell`: the largest cell end, or zero without cells. */
  function LastCellEnd(cs: seq<GridCell>): (r: real)
    ensures cs == [] ==> r == 0.0
    ensures forall c :: c in cs ==> End(c) <= r
    ensures cs != [] ==> exists c :: c in cs && r == End(c)
  {
    if cs == [] then 0.0
    else if |cs| == 1 then End(cs[0])
    else
      var rest := LastCellEnd(cs[1..]);
      assert forall c :: c in cs ==> c == cs[0] || c in cs[1..];
      assert forall c :: c in cs[1..] ==> c in cs;
      if End(cs[0]) >= rest then End(cs[0]) else rest
  }


  /** The far-most position `reloadData` keeps: the largest cell end, but
      never below zero. */
  function ReachOf(cs: seq<GridCell>): (r: real)
    ensures r >= 0.0
    ensures forall c :: c in cs ==> End(c) <= r
    ensures r == 0.0 || exists c :: c in cs && r == End(c)
  {
    if cs == [] then 0.0
    else
      var prev := ReachOf(cs[..|cs| - 1]);
      assert forall c :: c in cs ==> c in cs[..|cs| - 1] || c == cs[|cs| - 1];
      if End(cs[|cs| - 1]) > prev then End(cs[|cs| - 1]) else prev
  }

  /** One more cell raises the reach to its end when that lies further. */
  lemma ReachOfStep(cs: seq<GridCell>, i: nat)
    requires i < |cs|
    ensures ReachOf(cs[..i + 1]) ==
      if End(cs[i]) > ReachOf(cs[..i]) then End(cs[i]) else ReachOf(cs[..i])
  {
    assert cs[..i + 1][..i] == cs[..i];
  }

  // ---------------------------------------------------------------------
  // Selection

  /** Every cell's flag set exactly when it is the cell with identity `id`. */
  function SelectedBy(cs: seq<GridCell>, id: Id): (r: seq<GridCell>)
    ensures |r| == |cs|
    ensures forall i :: 0 <= i < |cs| ==> r[i] == cs[i].(isSelected := cs[i].id == id)
  {
    seq(|cs|, i requires 0 <= i < |cs| => cs[i].(isSelected := cs[i].id == id))
  }

  /** The selected index after a selection by identity: the index
      `firstIndex(of:)` finds, or none. */
  function SelectedIndexOf(cs: seq<GridCell>, id: Id): Option<int>
  {
    var found := IndexOfId(cs, id);
    if found.Some? then Some(found.value) else None
  }

  /** The delegate calls of a selection by identity: one `didSelect` with
      the flagged cell when it is found. */
  function SelectEvents(cs: seq<GridCell>, id: Id): seq<GridEvent>
  {
    var found := IndexOfId(cs, id);
    if found.Some? then [DidSelect(SelectedBy(cs, id)[found.value], found.value)] else []
  }

  /** A cell callback passes the view's own cell object: when the view holds
      a cell with the argument's identity, the argument is that cell as it
      is now. */
  predicate IsLive(cs: seq<GridCell>, cell: GridCell)
  {
    var found := IndexOfId(cs, cell.id);
    found.Some? ==> cs[found.value] == cell
  }

  /** Every cell's flag cleared. */
  function Unselected(cs: seq<GridCell>): (r: seq<GridCell>)
    ensures |r| == |cs|
    ensures forall i :: 0 <= i < |cs| ==> r[i] == cs[i].(isSelected := false)
  {
    seq(|cs|, i requires 0 <= i < |cs| => cs[i].(isSelected := false))
  }

  /** At most one cell is selected after a selection, and it is selected
      exactly when the identity is found, at the index `firstIndex` gives. */
  lemma SelectionIsUnique(cs: seq<GridCell>, id: Id)
    requires DistinctIds(cs)
    ensures var r := SelectedBy(cs, id);
      (forall i, j :: 0 <= i < |r| && 0 <= j < |r| && r[i].isSelected && r[j].isSelected ==> i == j) &&
      (IndexOfId(cs, id).Some? <==> exists i :: 0 <= i < |r| && r[i].isSelected) &&
      (IndexOfId(cs, id).Some? ==> r[IndexOfId(cs, id).value].isSelected)
  {
  }

  /** A position dragged below zero is held at zero. */
  function ClampedPosition(x: real): (r: real)
    ensures r >= 0.0
    ensures x >= 0.0 ==> r == x
    ensures x < 0.0 ==> r == 0.0
  {
    if x < 0.0 then 0.0 else x
  }

  // ---------------------------------------------------------------------
  // Pinch zoom

  /** The zoom part of the view state. */
  datatype ZoomState = ZoomState(level: ZoomLevel, measureWidth: real, minMeasureWidth: real, maxMeasureWidth: real)

  predicate ZoomBounds(z: ZoomState)
  {
    0.0 < z.minMeasureWidth <= z.measureWidth <= z.maxMeasureWidth
  }

  /** The measure width after one pinch step, with the scale clamped so the
      width stays between the bounds. */
  function ScaledWidth(measureWidth: real, minWidth: real, maxWidth: real, zoomSpeed: real, pinchScale: real): real
    requires 0.0 < minWidth <= measureWidth <= maxWidth
  {
    var scale := (pinchScale - 1.0) * zoomSpeed + 1.0;
    var upper := maxWidth / measureWidth;
    var lower := minWidth / measureWidth;
    var clamped := if upper < scale then upper else scale;
    var clamped' := if clamped < lower then lower else clamped;
    measureWidth * clamped'
  }

  /** The pinch-scaled width of a zoom state. */
  function ScaledWidthOf(z: ZoomState, zoomSpeed: real, pinchScale: real): real
    requires ZoomBounds(z)
  {
    ScaledWidth(z.measureWidth, z.minMeasureWidth, z.maxMeasureWidth, zoomSpeed, pinchScale)
  }

  /** `didZoom` on a two-finger pinch: scale the width, and at a bound switch
      to the next level (if there is one) with new bounds. */
  function Pinched(z: ZoomState, zoomSpeed: real, pinchScale: real, beats: int): ZoomState
    requires ZoomBounds(z) && beats > 0
  {
    var w := ScaledWidthOf(z, zoomSpeed, pinchScale);
    if w >= z.maxMeasureWidth && ZoomIn(z.level).Some? then
      var minW := z.maxMeasureWidth / beats as real;
      ZoomState(ZoomIn(z.level).value, minW, minW, z.maxMeasureWidth)
    else if w <= z.minMeasureWidth && ZoomOut(z.level).Some? then
      var maxW := z.minMeasureWidth * beats as real;
      ZoomState(ZoomOut(z.level).value, maxW, z.minMeasureWidth, maxW)
    else z.(measureWidth := w)
  }

  /** The scaled width stays between the bounds. */
  lemma ScaledWidthInBounds(measureWidth: real, minWidth: real, maxWidth: real, zoomSpeed: real, pinchScale: real)
    requires 0.0 < minWidth <= measureWidth <= maxWidth
    ensures minWidth <= ScaledWidth(measureWidth, minWidth, maxWidth, zoomSpeed, pinchScale) <= maxWidth
  {
    var mw := measureWidth;
    var upper := maxWidth / mw;
    var lower := minWidth / mw;
    assert lower <= upper;
    assert mw * upper == maxWidth && mw * lower == minWidth;
    var scale := (pinchScale - 1.0) * zoomSpeed + 1.0;
    var c := if upper < scale then upper else scale;
    var c' := if c < lower then lower else c;
    assert lower <= c' <= upper;
    assert mw * c' - mw * lower == mw * (c' - lower);
    assert mw * upper - mw * c' == mw * (upper - c');
  }

  /** A pinch keeps the width between the bounds, moves at most one level,
      and changes level only at a bound. */
  lemma PinchKeepsBounds(z: ZoomState, zoomSpeed: real, pinchScale: real, beats: int)
    requires ZoomBounds(z) && beats > 0
    ensures ZoomBounds(Pinched(z, zoomSpeed, pinchScale, beats))
    ensures var r := Pinched(z, zoomSpeed, pinchScale, beats);
      r.level == z.level || Some(r.level) == ZoomIn(z.level) || Some(r.level) == ZoomOut(z.level)
    ensures var r := Pinched(z, zoomSpeed, pinchScale, beats);
      r.level == z.level ==> r.measureWidth == ScaledWidthOf(z, zoomSpeed, pinchScale)
  {
    ScaledWidthInBounds(z.measureWidth, z.minMeasureWidth, z.maxMeasureWidth, zoomSpeed, pinchScale);
    var b := beats as real;
    var q := z.maxMeasureWidth / b;
    assert q * b == z.maxMeasureWidth;
    NonNegativeProduct(q, b - 1.0);
    NonNegativeProduct(z.minMeasureWidth, b - 1.0);
    assert q * b - q == q * (b - 1.0);
    assert z.minMeasureWidth * b - z.minMeasureWidth == z.minMeasureWidth * (b - 1.0);
  }

  /** The on-screen width of one bar. */
  function BarWidth(z: ZoomState, beats: int): real
  {
    z.measureWidth * Multiplier(z.level, beats) as real
  }

  /** Switching between bar and beat keeps the on-screen bar width; switching
      between beat and sub-beat keeps it exactly when a bar has four beats. */
  lemma PinchBarWidth(z: ZoomState, zoomSpeed: real, pinchScale: real, beats: int)
    requires ZoomBounds(z) && beats > 0
    ensures var r := Pinched(z, zoomSpeed, pinchScale, beats);
      var scaled := z.(measureWidth := ScaledWidthOf(z, zoomSpeed, pinchScale));
      (r.level != z.level && (r.level == Bar || z.level == Bar) ==> BarWidth(r, beats) == BarWidth(scaled, beats)) &&
      (r.level != z.level && r.level != Bar && z.level != Bar ==>
        (BarWidth(r, beats) == BarWidth(scaled, beats) <==> beats == 4))
  {
    ScaledWidthInBounds(z.measureWidth, z.minMeasureWidth, z.maxMeasureWidth, zoomSpeed, pinchScale);
    var w := ScaledWidthOf(z, zoomSpeed, pinchScale);
    if w >= z.maxMeasureWidth && ZoomIn(z.level).Some? {
      ZoomInBarWidth(z, w, beats);
    } else if w <= z.minMeasureWidth && ZoomOut(z.level).Some? {
      ZoomOutBarWidth(z, w, beats);
    }
  }

  /** Zooming in at the upper bound: the new level's width is the old upper
      bound split over the beats. */
  lemma ZoomInBarWidth(z: ZoomState, w: real, beats: int)
    requires ZoomBounds(z) && beats > 0 && ZoomIn(z.level).Some? && w == z.maxMeasureWidth
    ensures var minW := z.maxMeasureWidth / beats as real;
      var r := ZoomState(ZoomIn(z.level).value, minW, minW, z.maxMeasureWidth);
      var scaled := z.(measureWidth := w);
      (z.level == Bar ==> BarWidth(r, beats) == BarWidth(scaled, beats)) &&
      (z.level == Beat ==> (BarWidth(r, beats) == BarWidth(scaled, beats) <==> beats == 4))
  {
    var b := beats as real;
    var minW := z.maxMeasureWidth / b;
    assert minW * b == w;
    assert (beats * 4) as real == b * 4.0 && (beats == 4 <==> b == 4.0);
    if z.level == Beat {
      assert BarWidth(ZoomState(Subbeat, minW, minW, w), beats) == minW * (b * 4.0);
      assert minW * (b * 4.0) == 4.0 * w;
      assert 4.0 * w == w * b <==> b == 4.0 by {
        assert w * b - 4.0 * w == w * (b - 4.0);
      }
    }
  }

  /** Zooming out at the lower bound: the new level's width is the old lower
      bound times the beats. */
  lemma ZoomOutBarWidth(z: ZoomState, w: real, beats: int)
    requires ZoomBounds(z) && beats > 0 && ZoomOut(z.level).Some? && w == z.minMeasureWidth
    ensures var maxW := z.minMeasureWidth * beats as real;
      var r := ZoomState(ZoomOut(z.level).value, maxW, z.minMeasureWidth, maxW);
      var scaled := z.(measureWidth := w);
      (z.level == Beat ==> BarWidth(r, beats) == BarWidth(scaled, beats)) &&
      (z.level == Subbeat ==> (BarWidth(r, beats) == BarWidth(scaled, beats) <==> beats == 4))
  {
    var b := beats as real;
    var maxW := w * b;
    assert (beats * 4) as real == b * 4.0 && (beats == 4 <==> b == 4.0);
    if z.level == Subbeat {
      assert BarWidth(z.(measureWidth := w), beats) == w * (b * 4.0);
      assert BarWidth(ZoomState(Beat, maxW, w, maxW), beats) == w * b * b;
      assert w * b * b == w * (b * 4.0) <==> b == 4.0 by {
        assert w * b * b - w * (b * 4.0) == (w * b) * (b - 4.0);
      }
    }
  }

  // ---------------------------------------------------------------------
  // The view

  /** A pan gesture's phase. */
  datatype PanState = Began | Changed | Ended | OtherPhase

  /** The two heads on the ruler. */
  datatype Head = Playhead | Rangehead

  /** The counter state of `drawMeasure` read as a label at a zoom level. */
  function CounterLabel(z: ZoomLevel, bar: int, beat: int, subbeat: int): MeasureLabel
  {
    match z
    case Bar => BarLabel(bar)
    case Beat => BeatLabel(bar, beat)
    case Subbeat => SubbeatLabel(bar, beat, subbeat)
  }

  /** One turn of the `fixOverlaps` loop on the cell `c` at live index
      `at`: what stays in its place and the delegate calls made. */
  method ResolveOne(e: GridCell, st: OverlapState, c: GridCell, isEdited: bool, at: nat)
    returns (out: seq<GridCell>, calls: seq<GridEvent>)
    ensures out == Outcome(e, st, c, isEdited)
    ensures calls == OutcomeEvents(e, st, c, isEdited, at)
  {
    if isEdited || !Intersects(e, c) {
      return [c], [];
    }
    if Contains(e, c) {
      return [], [DidDelete(c, at)];
    }
    var cell := c;
    calls := [];
    match st {
      case MoveRight | Resize =>
        if End(e) > cell.position {
          var oldPosition := cell.position;
          cell := cell.(position := End(e));
          var positionDiff := cell.position - oldPosition;
          cell := cell.(duration := cell.duration - positionDiff);
          calls := calls + [DidUpdate(cell, at)];
        }
      case MoveLeft =>
        if End(cell) > e.position {
          cell := cell.(duration := e.position - cell.position);
          calls := calls + [DidUpdate(cell, at)];
        }
    }
    assert cell == Adjusted(e, st, c);
    if cell.duration <= 0.0 {
      out := [];
      calls := calls + [DidDelete(cell, at)];
    } else {
      out := [cell];
    }
  }

  /** The `fixOverlaps` loop over the cells as they stood, tracking each
      one's live index (the number of cells kept before it). */
  method Resolve(e: GridCell, st: OverlapState, orig: seq<GridCell>, ei: int)
    returns (live: seq<GridCell>, calls: seq<GridEvent>)
    ensures live == Resolved(e, st, orig, ei, |orig|)
    ensures calls == ResolvedEvents(e, st, orig, ei, |orig|)
  {
    live := orig;
    calls := [];
    var j := 0;
    for k := 0 to |orig|
      invariant j == |Resolved(e, st, orig, ei, k)|
      invariant live == Resolved(e, st, orig, ei, k) + orig[k..]
      invariant calls == ResolvedEvents(e, st, orig, ei, k)
    {
      live, calls, j := ResolveAt(e, st, orig, ei, k, live, calls, j);
    }
    assert orig[|orig|..] == [];
  }

  /** The body of the loop in `Resolve`: the cell that stood at input
      index `k` sits at live index `j`; its outcome replaces it there. */
  method ResolveAt(e: GridCell, st: OverlapState, orig: seq<GridCell>, ei: int, k: nat,
                   live: seq<GridCell>, calls: seq<GridEvent>, j: nat)
    returns (live': seq<GridCell>, calls': seq<GridEvent>, j': nat)
    requires k < |orig|
    requires j == |Resolved(e, st, orig, ei, k)|
    requires live == Resolved(e, st, orig, ei, k) + orig[k..]
    requires calls == ResolvedEvents(e, st, orig, ei, k)
    ensures j' == |Resolved(e, st, orig, ei, k + 1)|
    ensures live' == Resolved(e, st, orig, ei, k + 1) + orig[k + 1..]
    ensures calls' == ResolvedEvents(e, st, orig, ei, k + 1)
  {
    var out, step := ResolveOne(e, st, orig[k], k == ei, j);
    ResolveTurn(e, st, orig, ei, k, live, out);
    ResolvedStep(e, st, orig, ei, k);
    live' := live[..j] + out + live[j + 1..];
    calls' := calls + step;
    j' := j + |out|;
  }

  /** One turn of the loop in `Resolve` moves the cells' invariant from `k`
      to `k + 1`. */
  lemma ResolveTurn(e: GridCell, st: OverlapState, orig: seq<GridCell>, ei: int, k: nat,
                    live: seq<GridCell>, out: seq<GridCell>)
    requires k < |orig|
    requires live == Resolved(e, st, orig, ei, k) + orig[k..]
    requires out == Outcome(e, st, orig[k], k == ei)
    ensures var j := |Resolved(e, st, orig, ei, k)|;
      j < |live| &&
      live[..j] + out + live[j + 1..] == Resolved(e, st, orig, ei, k + 1) + orig[k + 1..]
  {
    ghost var before := Resolved(e, st, orig, ei, k);
    ghost var rest := orig[k + 1..];
    assert orig[k..] == [orig[k]] + rest;
    SpliceAt(before, orig[k], rest, out);
    assert Resolved(e, st, orig, ei, k + 1) == before + out;
  }

  /** Replacing the element after `before` by `out` leaves `before + out`
      followed by the rest. */
  lemma SpliceAt<T>(before: seq<T>, x: T, rest: seq<T>, out: seq<T>)
    ensures var s := before + ([x] + rest);
      s[..|before|] + out + s[|before| + 1..] == (before + out) + rest
  {
    var s := before + ([x] + rest);
    assert s[..|before|] == before;
    assert s[|before| + 1..] == rest;
  }

  /** The arithmetic of one `didZoom` step, as the view performs it. */
  method PinchStep(z: ZoomState, zoomSpeed: real, pinchScale: real, beats: int) returns (r: ZoomState)
    requires ZoomBounds(z) && beats > 0
    ensures r == Pinched(z, zoomSpeed, pinchScale, beats)
  {
    var width, minWidth, maxWidth, level := z.measureWidth, z.minMeasureWidth, z.maxMeasureWidth, z.level;
    var scale := (pinchScale - 1.0) * zoomSpeed + 1.0;
    if maxWidth / width < scale {
      scale := maxWidth / width;
    }
    if scale < minWidth / width {
      scale := minWidth / width;
    }
    width := width * scale;
    assert width == ScaledWidthOf(z, zoomSpeed, pinchScale);
    var zoomIn, zoomOut := ZoomIn(level), ZoomOut(level);
    if width >= maxWidth && zoomIn.Some? {
      level := zoomIn.value;
      minWidth := maxWidth / beats as real;
      width := minWidth;
    } else if width <= minWidth && zoomOut.Some? {
      level := zoomOut.value;
      maxWidth := minWidth * beats as real;
      width := maxWidth;
    }
    r := ZoomState(level, width, minWidth, maxWidth);
  }

  /** The label loop of `drawMeasure`: a running bar/beat/sub-beat counter
      read out once per column boundary. */
  method CountLabels(count: nat, z: ZoomLevel, beats: int) returns (labels: seq<MeasureLabel>)
    requires beats > 0
    ensures |labels| == count + 1
    ensures forall i :: 0 <= i < |labels| ==> labels[i] == GridLabel(i, z, beats)
  {
    var currentBar, currentBeat, currentSubbeat := 1, 1, 1;
    labels := [];
    GridLabelTicks(0, z, beats);
    for i := 0 to count + 1
      invariant |labels| == i
      invariant forall m :: 0 <= m < i ==> labels[m] == GridLabel(m, z, beats)
      invariant CounterLabel(z, currentBar, currentBeat, currentSubbeat) == GridLabel(i, z, beats)
    {
      var text;
      text, currentBar, currentBeat, currentSubbeat := CountStep(z, beats, currentBar, currentBeat, currentSubbeat);
      GridLabelTicks(i, z, beats);
      labels := labels + [text];
    }
  }

  /** One turn of the label loop: read the counter out, then advance it by
      a sub-beat, beat or bar, carrying into the next part. */
  method CountStep(z: ZoomLevel, beats: int, bar: int, beat: int, subbeat: int)
    returns (text: MeasureLabel, bar': int, beat': int, subbeat': int)
    ensures text == CounterLabel(z, bar, beat, subbeat)
    ensures CounterLabel(z, bar', beat', subbeat') == Tick(text, beats)
  {
    bar', beat', subbeat' := bar, beat, subbeat;
    match z {
      case Bar =>
        text := BarLabel(bar');
        bar' := bar' + 1;
      case Beat =>
        text := BeatLabel(bar', beat');
        beat' := beat' + 1;
        if beat' > beats {
          bar' := bar' + 1;
          beat' := 1;
        }
      case Subbeat =>
        text := SubbeatLabel(bar', beat', subbeat');
        subbeat' := subbeat' + 1;
        if subbeat' > 4 {
          subbeat' := 1;
          beat' := beat' + 1;
          if beat' > beats {
            bar' := bar' + 1;
            beat' := 1;
          }
        }
    }
  }

  /** The first loop of `quantize(zoomLevel:)`: every position rounded to
      the nearest multiple of `range`. */
  method SnapCells(cs: seq<GridCell>, range: real) returns (snapped: seq<GridCell>)
    requires range > 0.0
    ensures snapped == SnapAll(cs, range)
  {
    snapped := cs;
    for i := 0 to |snapped|
      invariant |snapped| == |cs|
      invariant forall m :: 0 <= m < i ==> snapped[m] == SnapAll(cs, range)[m]
      invariant forall m :: i <= m < |snapped| ==> snapped[m] == cs[m]
    {
      var factor := RoundHalfAway(snapped[i].position / range);
      snapped := snapped[i := snapped[i].(position := factor as real * range)];
    }
  }

  /** The loop of `reloadData`: flag the selected cell and track the
      far-most cell end, starting from zero. */
  method LoadCells(source: seq<GridCell>, selected: Option<int>) returns (loaded: seq<GridCell>, farMost: real)
    ensures |loaded| == |source|
    ensures forall i :: 0 <= i < |source| ==> loaded[i] == source[i].(isSelected := selected == Some(i))
    ensures farMost == ReachOf(source)
  {
    loaded := [];
    farMost := 0.0;
    for i := 0 to |source|
      invariant |loaded| == i
      invariant forall m :: 0 <= m < i ==> loaded[m] == source[m].(isSelected := selected == Some(m))
      invariant farMost == ReachOf(source[..i])
    {
      loaded, farMost := LoadOne(source, selected, i, loaded, farMost);
    }
    assert source[..|source|] == source;
  }

  /** One turn of the `reloadData` loop: the flagged cell appended, and the
      far-most end once it is counted. */
  method LoadOne(source: seq<GridCell>, selected: Option<int>, i: nat, loaded: seq<GridCell>, farMost: real)
    returns (loaded': seq<GridCell>, farMost': real)
    requires i < |source| && |loaded| == i && farMost == ReachOf(source[..i])
    requires forall m :: 0 <= m < i ==> loaded[m] == source[m].(isSelected := selected == Some(m))
    ensures |loaded'| == i + 1
    ensures forall m :: 0 <= m < i + 1 ==> loaded'[m] == source[m].(isSelected := selected == Some(m))
    ensures farMost' == ReachOf(source[..i + 1])
  {
    var cell := source[i].(isSelected := selected == Some(i));
    loaded' := loaded + [cell];
    ReachOfStep(source, i);
    var rightPosition := End(cell);
    assert rightPosition == End(source[i]);
    farMost' := farMost;
    if rightPosition > farMost {
      farMost' := rightPosition;
    }
  }

  /** The loop of `selectCell(_:)`: clear every flag, set the flag of the
      cell with this identity and remember its index. */
  method MarkSelected(cs: seq<GridCell>, id: Id) returns (updated: seq<GridCell>, selected: Option<int>)
    requires DistinctIds(cs)
    ensures updated == SelectedBy(cs, id)
    ensures selected.Some? <==> IndexOfId(cs, id).Some?
    ensures selected.Some? ==> selected.value == IndexOfId(cs, id).value
  {
    selected := None;
    updated := cs;
    for i := 0 to |updated|
      invariant |updated| == |cs|
      invariant forall m :: 0 <= m < i ==> updated[m] == cs[m].(isSelected := cs[m].id == id)
      invariant forall m :: i <= m < |updated| ==> updated[m] == cs[m]
      invariant selected.Some? ==> 0 <= selected.value < i && cs[selected.value].id == id
      invariant selected.None? ==> forall m :: 0 <= m < i ==> cs[m].id != id
    {
      updated := updated[i := updated[i].(isSelected := false)];
      if updated[i].id == id {
        updated := updated[i := updated[i].(isSelected := true)];
        selected := Some(i);
      }
    }
    if selected.Some? {
      IndexOfIdUnique(cs, selected.value);
    }
  }

  class GridView {
    var cells: seq<GridCell>
    var selectedCellIndex: Option<int>
    var movingCellStartPosition: Option<real>
    var overlapState: Option<OverlapState>
    var farMostCellPosition: real
    var measureCount: int
    var measureWidth: real
    var maxMeasureWidth: real
    var minMeasureWidth: real
    var timeSignatureBeatCount: int
    var zoomSpeed: real
    var zoomLevel: ZoomLevel
    var isQuantizing: bool
    var measureLabels: seq<MeasureLabel>
    var playheadPosition: real
    var rangeheadPosition: real
    /** Delegate calls made so far, oldest first. */
    var events: seq<GridEvent>

    ghost predicate Valid()
      reads this
    {
      DistinctIds(cells) && timeSignatureBeatCount > 0 && measureCount >= 0 &&
      ZoomBounds(Zoom())
    }

    function Zoom(): ZoomState
      reads this
    {
      ZoomState(zoomLevel, measureWidth, minMeasureWidth, maxMeasureWidth)
    }

    /** The ruler and head settings that editing leaves alone. */
    ghost function Settings(): (ZoomState, real, int, int, seq<MeasureLabel>, real, real)
      reads this
    {
      (Zoom(), zoomSpeed, timeSignatureBeatCount, measureCount, measureLabels, playheadPosition, rangeheadPosition)
    }

    /** The state a drag or a quantize leaves behind. */
    ghost function DragState(): (Option<real>, Option<OverlapState>, real, bool)
      reads this
    {
      (movingCellStartPosition, overlapState, farMostCellPosition, isQuantizing)
    }

    /** The stored property defaults of `RBGridView`. */
    constructor ()
      ensures Valid()
      ensures cells == [] && selectedCellIndex == None && events == []
      ensures movingCellStartPosition == None && overlapState == None && farMostCellPosition == 0.0
      ensures measureCount == 0 && measureLabels == [] && timeSignatureBeatCount == 4
      ensures Zoom() == ZoomState(Bar, 200.0, 100.0, 300.0) && zoomSpeed == 1.0 && !isQuantizing
      ensures playheadPosition == 0.0 && rangeheadPosition == 0.0
    {
      cells := [];
      selectedCellIndex := None;
      movingCellStartPosition := None;
      overlapState := None;
      farMostCellPosition := 0.0;
      measureCount := 0;
      measureWidth := 200.0;
      maxMeasureWidth := 300.0;
      minMeasureWidth := 100.0;
      timeSignatureBeatCount := 4;
      zoomSpeed := 1.0;
      zoomLevel := Bar;
      isQuantizing := false;
      measureLabels := [];
      playheadPosition := 0.0;
      rangeheadPosition := 0.0;
      events := [];
    }

    /** `fixOverlaps(editingCellIndex:)`: the edited cell (the given index, or
        the selected one) wins; every other cell it intersects is deleted,
        or trimmed away from it and deleted if nothing is left. */
    method FixOverlaps(editingCellIndex: Option<int>)
      requires Valid()
      modifies this
      ensures Valid()
      ensures var target := if editingCellIndex.Some? then editingCellIndex else old(selectedCellIndex);
        cells == FixedCells(old(cells), target, overlapState) &&
        events == old(events) + FixEvents(old(cells), target, overlapState)
      ensures selectedCellIndex == old(selectedCellIndex)
      ensures DragState() == old(DragState()) && Settings() == old(Settings())
    {
      var target := if editingCellIndex.Some? then editingCellIndex else selectedCellIndex;
      if !HasEditedCell(cells, target) {
        return;
      }
      var orig := cells;
      var ei := target.value;
      var st := EffectiveState(overlapState);
      var live, calls := Resolve(orig[ei], st, orig, ei);
      ResolvedDistinct(orig[ei], st, orig, ei, |orig|);
      cells := live;
      events := events + calls;
    }

    /** `quantize(zoomLevel:)`: snap every cell to the grid step of the
        level, then resolve overlaps with each index in turn as the edited
        cell. */
    method Quantize(level: int)
      requires Valid()
      modifies this
      ensures Valid() && !isQuantizing
      ensures var snapped := SnapAll(old(cells), QuantizeRange(level, timeSignatureBeatCount));
        cells == FixSeriesCells(snapped, overlapState, |snapped|) &&
        events == old(events) + SnapEvents(snapped) + FixSeriesEvents(snapped, overlapState, |snapped|) + [DidQuantize]
      ensures selectedCellIndex == old(selectedCellIndex) && Settings() == old(Settings())
      ensures movingCellStartPosition == old(movingCellStartPosition) && overlapState == old(overlapState)
      ensures farMostCellPosition == old(farMostCellPosition)
    {
      isQuantizing := true;
      var range := QuantizeRange(level, timeSignatureBeatCount);
      var snapped := SnapCells(cells, range);
      SnapAllIdempotent(cells, range);
      cells := snapped;
      events := events + SnapEvents(snapped);
      FixEach(|snapped|);
      isQuantizing := false;
      events := events + [DidQuantize];
    }

    /** The second loop of `quantize(zoomLevel:)`: `fixOverlaps` with each
        of the first `n` indices in turn as the edited cell. */
    method FixEach(n: nat)
      requires Valid()
      modifies this
      ensures Valid()
      ensures cells == FixSeriesCells(old(cells), overlapState, n)
      ensures events == old(events) + FixSeriesEvents(old(cells), overlapState, n)
      ensures selectedCellIndex == old(selectedCellIndex) && Settings() == old(Settings())
      ensures DragState() == old(DragState())
    {
      for i := 0 to n
        invariant Valid()
        invariant cells == FixSeriesCells(old(cells), overlapState, i)
        invariant events == old(events) + FixSeriesEvents(old(cells), overlapState, i)
        invariant selectedCellIndex == old(selectedCellIndex) && Settings() == old(Settings())
        invariant DragState() == old(DragState())
      {
        FixSeriesStep(old(cells), overlapState, i);
        AppendAssoc(old(events), FixSeriesEvents(old(cells), overlapState, i),
                    FixEvents(FixSeriesCells(old(cells), overlapState, i), Some(i), overlapState));
        FixOverlaps(Some(i));
      }
    }

    /** `durationForTranslation` at the view's current zoom. */
    function DurationOf(translation: real): real
      reads this
      requires Valid()
    {
      DurationForTranslation(translation, measureWidth, zoomLevel, timeSignatureBeatCount)
    }

    /** `didZoom(pinch:)`: only a two-finger pinch that began or changed
        does anything; see `Pinched`. */
    method DidZoom(state: PanState, numberOfTouches: int, pinchScale: real)
      requires Valid()
      modifies this
      ensures Valid()
      ensures (state == Began || state == Changed) && numberOfTouches == 2 ==>
        Zoom() == Pinched(old(Zoom()), zoomSpeed, pinchScale, timeSignatureBeatCount)
      ensures !((state == Began || state == Changed) && numberOfTouches == 2) ==> Zoom() == old(Zoom())
      ensures cells == old(cells) && selectedCellIndex == old(selectedCellIndex) && events == old(events)
      ensures DragState() == old(DragState()) && zoomSpeed == old(zoomSpeed)
      ensures timeSignatureBeatCount == old(timeSignatureBeatCount) && measureCount == old(measureCount)
      ensures measureLabels == old(measureLabels)
      ensures playheadPosition == old(playheadPosition) && rangeheadPosition == old(rangeheadPosition)
    {
      if (state == Began || state == Changed) && numberOfTouches == 2 {
        PinchKeepsBounds(Zoom(), zoomSpeed, pinchScale, timeSignatureBeatCount);
        var z := PinchStep(Zoom(), zoomSpeed, pinchScale, timeSignatureBeatCount);
        zoomLevel, measureWidth, minMeasureWidth, maxMeasureWidth := z.level, z.measureWidth, z.minMeasureWidth, z.maxMeasureWidth;
      }
    }

    /** `drawMeasure`: one label per column boundary, from a running
        bar/beat/sub-beat counter. */
    method DrawMeasure()
      requires Valid()
      modifies this
      ensures Valid()
      ensures |measureLabels| == measureCount + 1
      ensures forall i :: 0 <= i < |measureLabels| ==>
        measureLabels[i] == GridLabel(i, zoomLevel, timeSignatureBeatCount)
      ensures cells == old(cells) && selectedCellIndex == old(selectedCellIndex) && events == old(events)
      ensures DragState() == old(DragState()) && Zoom() == old(Zoom()) && zoomSpeed == old(zoomSpeed)
      ensures timeSignatureBeatCount == old(timeSignatureBeatCount) && measureCount == old(measureCount)
      ensures playheadPosition == old(playheadPosition) && rangeheadPosition == old(rangeheadPosition)
    {
      measureLabels := CountLabels(measureCount, zoomLevel, timeSignatureBeatCount);
    }

    /** The measure-count part of `layoutSubviews`: recount the columns and
        redraw the labels when the count changes. */
    method Layout(frameWidth: real)
      requires Valid() && frameWidth >= 0.0
      modifies this
      ensures Valid()
      ensures var multiplier := Multiplier(zoomLevel, timeSignatureBeatCount) as real;
        measureCount == MeasureCountFor(farMostCellPosition, rangeheadPosition, frameWidth, measureWidth, multiplier)
      ensures measureCount != old(measureCount) ==>
        |measureLabels| == measureCount + 1 &&
        forall i :: 0 <= i < |measureLabels| ==> measureLabels[i] == GridLabel(i, zoomLevel, timeSignatureBeatCount)
      ensures measureCount == old(measureCount) ==> measureLabels == old(measureLabels)
      ensures cells == old(cells) && selectedCellIndex == old(selectedCellIndex) && events == old(events)
      ensures DragState() == old(DragState()) && Zoom() == old(Zoom()) && zoomSpeed == old(zoomSpeed)
      ensures timeSignatureBeatCount == old(timeSignatureBeatCount)
      ensures playheadPosition == old(playheadPosition) && rangeheadPosition == old(rangeheadPosition)
    {
      var multiplier := Multiplier(zoomLevel, timeSignatureBeatCount) as real;
      MeasureCountLeast(farMostCellPosition, rangeheadPosition, frameWidth, measureWidth, multiplier, 0);
      var newMeasureCount := MeasureCountFor(farMostCellPosition, rangeheadPosition, frameWidth, measureWidth, multiplier);
      assert newMeasureCount >= Ceil(frameWidth / measureWidth) >= 0;
      if measureCount != newMeasureCount {
        measureCount := newMeasureCount;
        DrawMeasure();
      }
    }

    /** `selectCell(_:)`: select the cell with this identity (if it is in the
        view) and clear every other selection flag. */
    method SelectCell(cell: GridCell)
      requires Valid()
      modifies this
      ensures Valid()
      ensures cells == SelectedBy(old(cells), cell.id)
      ensures selectedCellIndex == SelectedIndexOf(old(cells), cell.id)
      ensures events == old(events) + SelectEvents(old(cells), cell.id)
      ensures DragState() == old(DragState()) && Settings() == old(Settings())
    {
      var updated, selected := MarkSelected(cells, cell.id);
      cells := updated;
      selectedCellIndex := selected;
      if selected.Some? {
        events := events + [DidSelect(cells[selected.value], selected.value)];
      }
    }

    /** `selectCell(at:)`: select the cell at an index, if there is one. */
    method SelectCellAt(index: int)
      requires Valid()
      modifies this
      ensures Valid()
      ensures 0 <= index < |old(cells)| ==>
        cells == SelectedBy(old(cells), old(cells)[index].id) && selectedCellIndex == Some(index) &&
        events == old(events) + [DidSelect(cells[index], index)]
      ensures !(0 <= index < |old(cells)|) ==>
        cells == old(cells) && selectedCellIndex == old(selectedCellIndex) && events == old(events)
      ensures DragState() == old(DragState()) && Settings() == old(Settings())
    {
      if 0 <= index < |cells| {
        IndexOfIdUnique(cells, index);
        SelectCell(cells[index]);
      }
    }

    /** `unselectCells`: clear every flag and the selected index. */
    method UnselectCells()
      requires Valid()
      modifies this
      ensures Valid()
      ensures cells == Unselected(old(cells)) && selectedCellIndex == None
      ensures events == old(events) + [DidUnselectCells]
      ensures DragState() == old(DragState()) && Settings() == old(Settings())
    {
      selectedCellIndex := None;
      cells := Unselected(cells);
      events := events + [DidUnselectCells];
    }

    /** `calculateFarMostCellPosition`. */
    method CalculateFarMostCellPosition()
      requires Valid()
      modifies this
      ensures Valid()
      ensures farMostCellPosition == FarMostCellPosition(cells)
      ensures cells == old(cells) && selectedCellIndex == old(selectedCellIndex) && events == old(events)
      ensures movingCellStartPosition == old(movingCellStartPosition) && overlapState == old(overlapState)
      ensures isQuantizing == old(isQuantizing) && Settings() == old(Settings())
    {
      farMostCellPosition := FarMostCellPosition(cells);
    }

    /** `snapRangeheadToLastCell`: the range head moves to the last cell end. */
    method SnapRangeheadToLastCell()
      requires Valid()
      modifies this
      ensures Valid()
      ensures rangeheadPosition == LastCellEnd(cells)
      ensures events == old(events) + [DidUpdateRangehead(false)]
      ensures cells == old(cells) && selectedCellIndex == old(selectedCellIndex) && DragState() == old(DragState())
      ensures Zoom() == old(Zoom()) && zoomSpeed == old(zoomSpeed) && playheadPosition == old(playheadPosition)
      ensures timeSignatureBeatCount == old(timeSignatureBeatCount) && measureCount == old(measureCount)
      ensures measureLabels == old(measureLabels)
    {
      rangeheadPosition := LastCellEnd(cells);
      events := events + [DidUpdateRangehead(false)];
    }

    /** `updateDurationOfCell(at:duration:)`; the index must be in range. */
    method UpdateDurationOfCell(index: int, duration: real)
      requires Valid() && 0 <= index < |cells|
      modifies this
      ensures Valid()
      ensures cells == old(cells)[index := old(cells)[index].(duration := duration)]
      ensures selectedCellIndex == old(selectedCellIndex) && events == old(events)
      ensures DragState() == old(DragState()) && Settings() == old(Settings())
    {
      cells := cells[index := cells[index].(duration := duration)];
    }

    /** `reloadData`: take the data source's cells (each a new cell view),
        drop a selected index past the end, flag the selected cell, and
        track the far-most cell end from zero. */
    method ReloadData(source: seq<GridCell>)
      requires Valid() && DistinctIds(source)
      modifies this
      ensures Valid()
      ensures selectedCellIndex ==
        if old(selectedCellIndex).Some? && old(selectedCellIndex).value >= |source| then None
        else old(selectedCellIndex)
      ensures |cells| == |source|
      ensures forall i :: 0 <= i < |source| ==>
        cells[i] == source[i].(isSelected := selectedCellIndex == Some(i))
      ensures farMostCellPosition == ReachOf(source)
      ensures events == old(events) && Settings() == old(Settings())
      ensures movingCellStartPosition == old(movingCellStartPosition) && overlapState == old(overlapState)
      ensures isQuantizing == old(isQuantizing)
    {
      var count := |source|;
      if selectedCellIndex.Some? && selectedCellIndex.value >= count {
        selectedCellIndex := None;
      }
      var loaded, farMost := LoadCells(source, selectedCellIndex);
      cells := loaded;
      farMostCellPosition := farMost;
    }

    /** The `.changed` step of a move: shift the cell by the drag, never
        before zero, report it, and tag the direction against the start. */
    method MoveCellBy(index: nat, translation: real)
      requires Valid() && index < |cells|
      modifies this
      ensures Valid()
      ensures var p := ClampedPosition(old(cells)[index].position + old(DurationOf(translation)));
        cells == old(cells)[index := old(cells)[index].(position := p)] &&
        events == old(events) + [DidUpdate(cells[index], index)] &&
        overlapState ==
          if old(movingCellStartPosition).Some? then
            Some(if p > old(movingCellStartPosition).value then MoveRight else MoveLeft)
          else old(overlapState)
      ensures selectedCellIndex == old(selectedCellIndex) && movingCellStartPosition == old(movingCellStartPosition)
      ensures farMostCellPosition == old(farMostCellPosition) && isQuantizing == old(isQuantizing)
      ensures Settings() == old(Settings())
    {
      var p := ClampedPosition(cells[index].position + DurationOf(translation));
      cells := cells[index := cells[index].(position := p)];
      events := events + [DidUpdate(cells[index], index)];
      if movingCellStartPosition.Some? {
        overlapState := Some(if p > movingCellStartPosition.value then MoveRight else MoveLeft);
      }
    }

    /** The `.ended` step of a move: resolve overlaps around the selected
        cell, clear the drag state, recompute the far-most end, report. */
    method EndMove()
      requires Valid()
      modifies this
      ensures Valid()
      ensures cells == FixedCells(old(cells), old(selectedCellIndex), old(overlapState))
      ensures events == old(events) + FixEvents(old(cells), old(selectedCellIndex), old(overlapState)) + [DidMoveCell]
      ensures overlapState == None && movingCellStartPosition == None
      ensures farMostCellPosition == FarMostCellPosition(cells)
      ensures selectedCellIndex == old(selectedCellIndex) && isQuantizing == old(isQuantizing)
      ensures Settings() == old(Settings())
    {
      FixOverlaps(None);
      overlapState := None;
      movingCellStartPosition := None;
      CalculateFarMostCellPosition();
      events := events + [DidMoveCell];
    }

    /** The `.changed` step of a resize: grow the duration by the drag. */
    method ResizeCellBy(index: nat, translation: real)
      requires Valid() && index < |cells|
      modifies this
      ensures Valid()
      ensures var d := old(cells)[index].duration + old(DurationOf(translation));
        cells == old(cells)[index := old(cells)[index].(duration := d)] &&
        events == old(events) + [DidUpdate(cells[index], index)]
      ensures selectedCellIndex == old(selectedCellIndex) && DragState() == old(DragState())
      ensures Settings() == old(Settings())
    {
      cells := cells[index := cells[index].(duration := cells[index].duration + DurationOf(translation))];
      events := events + [DidUpdate(cells[index], index)];
    }

    /** The `.ended` step of a resize: resolve overlaps around the selected
        cell, clear the tag, recompute the far-most end, report. */
    method EndResize()
      requires Valid()
      modifies this
      ensures Valid()
      ensures cells == FixedCells(old(cells), old(selectedCellIndex), old(overlapState))
      ensures events == old(events) + FixEvents(old(cells), old(selectedCellIndex), old(overlapState)) + [DidResizeCell]
      ensures overlapState == None && farMostCellPosition == FarMostCellPosition(cells)
      ensures selectedCellIndex == old(selectedCellIndex) && isQuantizing == old(isQuantizing)
      ensures movingCellStartPosition == old(movingCellStartPosition)
      ensures Settings() == old(Settings())
    {
      FixOverlaps(None);
      overlapState := None;
      CalculateFarMostCellPosition();
      events := events + [DidResizeCell];
    }

    /** `gridViewCellDidMove`: select on begin; while changing, move the cell
        by the drag (never before zero) and tag the direction; on end,
        resolve overlaps with the selected cell. The `minXNonNegative` input
        is the view's frame test. */
    method CellDidMove(cell: GridCell, state: PanState, translation: real, minXNonNegative: bool)
      requires Valid() && IsLive(cells, cell)
      modifies this
      ensures Valid()
      ensures Settings() == old(Settings()) && isQuantizing == old(isQuantizing)
      ensures state != Began ==> selectedCellIndex == old(selectedCellIndex)
      ensures state == Began ==>
        cells == SelectedBy(old(cells), cell.id) && selectedCellIndex == SelectedIndexOf(old(cells), cell.id) &&
        events == old(events) + SelectEvents(old(cells), cell.id) &&
        movingCellStartPosition == Some(cell.position) &&
        overlapState == old(overlapState) && farMostCellPosition == old(farMostCellPosition)
      ensures state == Changed || state == OtherPhase ==> movingCellStartPosition == old(movingCellStartPosition)
      ensures state == Changed ==>
        var found := IndexOfId(old(cells), cell.id);
        selectedCellIndex == old(selectedCellIndex) && farMostCellPosition == old(farMostCellPosition) &&
        if !minXNonNegative || found.None? then
          cells == old(cells) && events == old(events) && overlapState == old(overlapState)
        else
          var index := found.value;
          var p := ClampedPosition(old(cells)[index].position + old(DurationOf(translation)));
          cells == old(cells)[index := old(cells)[index].(position := p)] &&
          events == old(events) + [DidUpdate(cells[index], index)] &&
          overlapState ==
            if old(movingCellStartPosition).Some? then
              Some(if p > old(movingCellStartPosition).value then MoveRight else MoveLeft)
            else old(overlapState)
      ensures state == Ended ==>
        if !minXNonNegative || IndexOfId(old(cells), cell.id).None? then
          cells == old(cells) && events == old(events) && DragState() == old(DragState())
        else
          cells == FixedCells(old(cells), old(selectedCellIndex), old(overlapState)) &&
          events == old(events) + FixEvents(old(cells), old(selectedCellIndex), old(overlapState)) + [DidMoveCell] &&
          overlapState == None && movingCellStartPosition == None &&
          farMostCellPosition == FarMostCellPosition(cells)
      ensures state == OtherPhase ==>
        cells == old(cells) && events == old(events) && DragState() == old(DragState())
    {
      if state == Began {
        SelectCell(cell);
        movingCellStartPosition := Some(cell.position);
      }
      if minXNonNegative {
        var found := IndexOfId(cells, cell.id);
        if found.Some? {
          var index := found.value;
          if state == Changed {
            MoveCellBy(index, translation);
          }
          if state == Ended {
            EndMove();
          }
        }
      }
    }

    /** `gridViewCellDidResize`: select on begin and tag a resize; while
        changing, grow the duration by the drag; on end, resolve overlaps
        with the selected cell. */
    method CellDidResize(cell: GridCell, state: PanState, translation: real, minXNonNegative: bool)
      requires Valid() && IsLive(cells, cell)
      modifies this
      ensures Valid()
      ensures Settings() == old(Settings()) && isQuantizing == old(isQuantizing)
      ensures state != Began ==> selectedCellIndex == old(selectedCellIndex)
      ensures movingCellStartPosition == old(movingCellStartPosition)
      ensures state == Began ==>
        cells == SelectedBy(old(cells), cell.id) && selectedCellIndex == SelectedIndexOf(old(cells), cell.id) &&
        events == old(events) + SelectEvents(old(cells), cell.id) &&
        overlapState == Some(Resize) && farMostCellPosition == old(farMostCellPosition)
      ensures state == Changed ==>
        var found := IndexOfId(old(cells), cell.id);
        selectedCellIndex == old(selectedCellIndex) && DragState() == old(DragState()) &&
        if !minXNonNegative || found.None? then
          cells == old(cells) && events == old(events)
        else
          var index := found.value;
          var d := old(cells)[index].duration + old(DurationOf(translation));
          cells == old(cells)[index := old(cells)[index].(duration := d)] &&
          events == old(events) + [DidUpdate(cells[index], index)]
      ensures state == Ended ==>
        if !minXNonNegative || IndexOfId(old(cells), cell.id).None? then
          cells == old(cells) && events == old(events) && DragState() == old(DragState())
        else
          cells == FixedCells(old(cells), old(selectedCellIndex), old(overlapState)) &&
          events == old(events) + FixEvents(old(cells), old(selectedCellIndex), old(overlapState)) + [DidResizeCell] &&
          overlapState == None && farMostCellPosition == FarMostCellPosition(cells)
      ensures state == OtherPhase ==>
        cells == old(cells) && events == old(events) && DragState() == old(DragState())
    {
      if state == Began {
        SelectCell(cell);
        overlapState := Some(Resize);
      }
      if minXNonNegative {
        var found := IndexOfId(cells, cell.id);
        if found.Some? {
          var index := found.value;
          if state == Changed {
            ResizeCellBy(index, translation);
          }
          if state == Ended {
            EndResize();
          }
        }
      }
    }

    /** `gridViewCellDidTap`: a tap on a selected cell clears the selection,
        on any other cell selects it. */
    method CellDidTap(cell: GridCell)
      requires Valid() && IsLive(cells, cell)
      modifies this
      ensures Valid()
      ensures cell.isSelected ==>
        cells == Unselected(old(cells)) && selectedCellIndex == None &&
        events == old(events) + [DidUnselectCells]
      ensures !cell.isSelected ==>
        cells == SelectedBy(old(cells), cell.id) && selectedCellIndex == SelectedIndexOf(old(cells), cell.id) &&
        events == old(events) + SelectEvents(old(cells), cell.id)
      ensures DragState() == old(DragState()) && Settings() == old(Settings())
    {
      if cell.isSelected {
        UnselectCells();
      } else {
        SelectCell(cell);
      }
    }

    /** `gridViewCellDidDelete`: remove the cell (clearing the selection
        first if it was the selected one) and report it. */
    method CellDidDelete(cell: GridCell)
      requires Valid() && IsLive(cells, cell)
      modifies this
      ensures Valid()
      ensures var found := IndexOfId(old(cells), cell.id);
        if found.None? then
          cells == old(cells) && events == old(events) && selectedCellIndex == old(selectedCellIndex)
        else
          var index := found.value;
          var before := if cell.isSelected then Unselected(old(cells)) else old(cells);
          cells == before[..index] + before[index + 1..] &&
          events == old(events) + (if cell.isSelected then [DidUnselectCells] else []) +
                    [DidDelete(before[index], index)] &&
          selectedCellIndex == (if cell.isSelected then None else old(selectedCellIndex))
      ensures DragState() == old(DragState()) && Settings() == old(Settings())
    {
      var found := IndexOfId(cells, cell.id);
      if found.Some? {
        var index := found.value;
        if cell.isSelected {
          UnselectCells();
        }
        var removed := cells[index];
        RemovedDistinct(cells, index);
        cells := cells[..index] + cells[index + 1..];
        events := events + [DidDelete(removed, index)];
      }
    }

    /** `playheadView(_:didPan:)` for either head: move it by the drag, never
        before zero, and report the end of the drag. `maxXWithinContent` is
        the view's frame test. */
    method HeadDidPan(head: Head, state: PanState, translation: real, maxXWithinContent: bool)
      requires Valid()
      modifies this
      ensures Valid()
      ensures var position := if head == Playhead then old(playheadPosition) else old(rangeheadPosition);
        var moves := maxXWithinContent && position >= 0.0;
        var newPosition := if moves then ClampedPosition(position + old(DurationOf(translation))) else position;
        (head == Playhead ==> playheadPosition == newPosition && rangeheadPosition == old(rangeheadPosition)) &&
        (head == Rangehead ==> rangeheadPosition == newPosition && playheadPosition == old(playheadPosition)) &&
        events == old(events) +
          if moves && state == Ended then
            (if head == Playhead then [DidUpdatePlayhead] else [DidUpdateRangehead(true)])
          else []
      ensures cells == old(cells) && selectedCellIndex == old(selectedCellIndex) && DragState() == old(DragState())
      ensures Zoom() == old(Zoom()) && zoomSpeed == old(zoomSpeed) && measureLabels == old(measureLabels)
      ensures timeSignatureBeatCount == old(timeSignatureBeatCount) && measureCount == old(measureCount)
    {
      var position := if head == Playhead then playheadPosition else rangeheadPosition;
      if !maxXWithinContent || position < 0.0 {
        return;
      }
      position := ClampedPosition(position + DurationOf(translation));
      if head == Playhead {
        playheadPosition := position;
      } else {
        rangeheadPosition := position;
      }
      if state == Ended {
        if head == Playhead {
          events := events + [DidUpdatePlayhead];
        } else {
          events := events + [DidUpdateRangehead(true)];
        }
      }
    }
  }
}
