/** The older timeline view of the rhythm editor (`RBScrollView`): an integer
    zoom level, a bar count that only grows, zero-based ruler labels, a
    quantize that only snaps, and an overlap fix that trims each cell
    against the next one in position order. Cells have the same shape as in
    the grid view and reuse its `GridCell` values. */
module Scroll {
  import opened Base
  import opened Grid

  /** The calls of `RBScrollViewDelegate`, in the order the view makes them. */
  datatype ScrollEvent =
    | Updated(cell: GridCell, index: nat)
    | Deleted(cell: GridCell, index: nat)
    | Selected(cell: GridCell, index: nat)
    | UnselectedAll
    | PlayheadUpdated
    | RangeheadUpdated

  // ---------------------------------------------------------------------
  // Columns and bar widths

  /** Ruler columns per bar at a zoom level: bars, beats, or four sub-beats
      per beat for every other level. */
  function ColumnsPerBar(level: int, beats: int): (r: int)
    requires beats > 0
    ensures r >= 1
  {
    if level == 0 then 1 else if level == 1 then beats else beats * 4
  }

  /** The width of one bar on screen (`measureBarWidth` of the layout). */
  function BarWidthAt(level: int, measureWidth: real, beats: int): real
    requires beats > 0
  {
    measureWidth * ColumnsPerBar(level, beats) as real
  }

  // ---------------------------------------------------------------------
  // Converting a drag to bars

  /** `durationForTranslation(_:)` as written: the sub-beat level divides by
      `beats / 4` where the layout multiplies by `beats * 4`. */
  function DurationForTranslationAsWritten(t: real, measureWidth: real, level: int, beats: int): (r: real)
    requires measureWidth > 0.0 && beats > 0
    ensures 0 <= level <= 1 ==> r * BarWidthAt(level, measureWidth, beats) == t
    ensures level == 2 ==> r * (measureWidth * (beats as real / 4.0)) == t
    ensures !(0 <= level <= 2) ==> r == 1.0
  {
    var d := t / measureWidth;
    if level == 0 then d
    else if level == 1 then d / beats as real
    else if level == 2 then d / (beats as real / 4.0)
    else 1.0
  }

  /** A drag converted to bars by the bar width the layout draws with; the
      fallback of one bar for levels past the sub-beat level is kept. */
  function BarsForTranslation(t: real, measureWidth: real, level: int, beats: int): real
    requires measureWidth > 0.0 && beats > 0
  {
    if 0 <= level <= 2 then t / BarWidthAt(level, measureWidth, beats) else 1.0
  }

  /** The drag is the converted number of bars times the drawn bar width;
      a level past the sub-beat level converts to one bar. */
  lemma BarsForTranslationScales(t: real, measureWidth: real, level: int, beats: int)
    requires measureWidth > 0.0 && beats > 0
    ensures 0 <= level <= 2 ==> BarsForTranslation(t, measureWidth, level, beats) * BarWidthAt(level, measureWidth, beats) == t
    ensures !(0 <= level <= 2) ==> BarsForTranslation(t, measureWidth, level, beats) == 1.0
  {
    if 0 <= level <= 2 {
      BarWidthPositive(level, measureWidth, beats);
    }
  }

  /** A drawn bar has a positive width. */
  lemma BarWidthPositive(level: int, measureWidth: real, beats: int)
    requires measureWidth > 0.0 && beats > 0 && 0 <= level <= 2
    ensures BarWidthAt(level, measureWidth, beats) > 0.0
  {
    NonNegativeProduct(measureWidth, ColumnsPerBar(level, beats) as real - 1.0);
  }

  /** Converting the on-screen width of `d` bars gives `d` back. */
  lemma BarsForTranslationRoundTrip(d: real, measureWidth: real, level: int, beats: int)
    requires measureWidth > 0.0 && beats > 0 && 0 <= level <= 2
    ensures BarsForTranslation(d * BarWidthAt(level, measureWidth, beats), measureWidth, level, beats) == d
  {
    BarWidthPositive(level, measureWidth, beats);
  }

  /** As written, the conversion agrees with the layout except at the
      sub-beat level, where it is sixteen times too large for every time
      signature: a one-bar drag at 4/4 moves a cell sixteen bars. */
  lemma AsWrittenTranslationOvershoots(t: real, measureWidth: real, level: int, beats: int)
    requires measureWidth > 0.0 && beats > 0
    ensures level != 2 ==>
      DurationForTranslationAsWritten(t, measureWidth, level, beats) == BarsForTranslation(t, measureWidth, level, beats)
    ensures level == 2 ==>
      DurationForTranslationAsWritten(t, measureWidth, level, beats) == 16.0 * BarsForTranslation(t, measureWidth, level, beats)
    ensures DurationForTranslationAsWritten(1600.0, 100.0, 2, 4) == 16.0 && BarWidthAt(2, 100.0, 4) == 1600.0
  {
    var b := beats as real;
    var d := t / measureWidth;
    if level == 1 {
      assert BarWidthAt(level, measureWidth, beats) == measureWidth * b;
      assert t / (measureWidth * b) == d / b;
    } else if level == 2 {
      assert BarWidthAt(level, measureWidth, beats) == measureWidth * (b * 4.0);
      assert t / (measureWidth * (b * 4.0)) == d / (b * 4.0);
      assert d / (b / 4.0) == 16.0 * (d / (b * 4.0));
    }
  }

  // ---------------------------------------------------------------------
  // Quantization

  /** The grid step of `quantize(zoomLevel:)` as written: the sub-beat step
      is `1 / (beats / 4)` bars. */
  function QuantizeRangeAsWritten(level: int, beats: int): (r: real)
    requires beats > 0
    ensures r > 0.0
  {
    if level == 0 then 1.0
    else if level == 1 then 1.0 / beats as real
    else if level == 2 then 1.0 / (beats as real / 4.0)
    else 1.0
  }

  /** As written, the sub-beat step is sixteen ruler columns instead of one
      (the grid view's `QuantizeRange` is one column at every level), so at
      4/4 a cell on the second beat snaps back to the bar line. */
  lemma AsWrittenQuantizeRangeIsSixteenColumns(level: int, beats: int)
    requires beats > 0
    ensures 0 <= level <= 2 ==> QuantizeRange(level, beats) * ColumnsPerBar(level, beats) as real == 1.0
    ensures level != 2 ==> QuantizeRangeAsWritten(level, beats) == QuantizeRange(level, beats)
    ensures level == 2 ==>
      QuantizeRangeAsWritten(level, beats) * ColumnsPerBar(level, beats) as real == 16.0
    ensures Snap(0.25, QuantizeRangeAsWritten(2, 4)) == 0.0 && Snap(0.25, QuantizeRange(2, 4)) == 0.25
  {
    var b := beats as real;
    if level == 2 {
      assert ColumnsPerBar(level, beats) as real == b * 4.0;
      assert 1.0 / (b / 4.0) * (b * 4.0) == 16.0;
      assert 1.0 / b / 4.0 * (b * 4.0) == 1.0;
    }
    assert Snap(0.25, QuantizeRangeAsWritten(2, 4)) == 0.0 by {
      assert QuantizeRangeAsWritten(2, 4) == 1.0;
      assert RoundHalfAway(0.25) == 0;
    }
    assert Snap(0.25, QuantizeRange(2, 4)) == 0.25 by {
      assert QuantizeRange(2, 4) == 0.0625;
      assert 0.25 / 0.0625 == 4.0;
      RoundOfInteger(4);
    }
  }

  /** The delegate calls of the quantize loop: one update per cell. */
  function SnapCalls(cs: seq<GridCell>): (r: seq<ScrollEvent>)
    ensures |r| == |cs|
    ensures forall i :: 0 <= i < |cs| ==> r[i] == Updated(cs[i], i)
  {
    seq(|cs|, i requires 0 <= i < |cs| => Updated(cs[i], i))
  }

  // ---------------------------------------------------------------------
  // Position order (`cells.sorted(by: { $0.position < $1.position })`)

  predicate InRange(cs: seq<GridCell>, order: seq<nat>)
  {
    forall k :: 0 <= k < |order| ==> order[k] < |cs|
  }

  predicate DistinctIndexes(order: seq<nat>)
  {
    forall k, l :: 0 <= k < l < |order| ==> order[k] != order[l]
  }

  predicate SortedByPosition(cs: seq<GridCell>, order: seq<nat>)
    requires InRange(cs, order)
  {
    forall k, l :: 0 <= k < l < |order| ==> cs[order[k]].position <= cs[order[l]].position
  }

  /** `order` lists every index of `cs` once, by non-decreasing position. */
  predicate IsPositionOrder(cs: seq<GridCell>, order: seq<nat>)
  {
    |order| == |cs| && InRange(cs, order) && DistinctIndexes(order) && SortedByPosition(cs, order) &&
    forall x :: 0 <= x < |cs| ==> x in order
  }

  /** Insert index `i` after every listed cell that does not start later. */
  function InsertByPosition(cs: seq<GridCell>, i: nat, order: seq<nat>): (r: seq<nat>)
    requires i < |cs| && InRange(cs, order)
    ensures |r| == |order| + 1
    ensures forall x :: x in r <==> x == i || x in order
  {
    if order == [] then [i]
    else if cs[i].position < cs[order[0]].position then [i] + order
    else
      var rest := InsertByPosition(cs, i, order[1..]);
      assert forall x :: x in order <==> x == order[0] || x in order[1..];
      [order[0]] + rest
  }

  /** A stable insertion sort of the first `n` indexes by position. Swift's
      `sorted(by:)` does not promise stability; every property below is
      proved for any order satisfying `IsPositionOrder`. */
  function PositionOrder(cs: seq<GridCell>, n: nat): (r: seq<nat>)
    requires n <= |cs|
    ensures |r| == n && InRange(cs, r)
    ensures forall x :: x in r <==> 0 <= x < n
  {
    if n == 0 then []
    else
      var prev := PositionOrder(cs, n - 1);
      assert InRange(cs, prev) by {
        forall k | 0 <= k < |prev|
          ensures prev[k] < |cs|
        {
          assert prev[k] in prev;
        }
      }
      var r := InsertByPosition(cs, n - 1, prev);
      assert InRange(cs, r) by {
        forall k | 0 <= k < |r|
          ensures r[k] < |cs|
        {
          assert r[k] in r;
        }
      }
      r
  }

  lemma {:induction false} InsertKeepsOrder(cs: seq<GridCell>, i: nat, order: seq<nat>)
    requires i < |cs| && InRange(cs, order) && i !in order
    requires DistinctIndexes(order) && SortedByPosition(cs, order)
    ensures InRange(cs, InsertByPosition(cs, i, order))
    ensures DistinctIndexes(InsertByPosition(cs, i, order))
    ensures SortedByPosition(cs, InsertByPosition(cs, i, order))
    decreases |order|
  {
    if order == [] {
    } else if cs[i].position < cs[order[0]].position {
      assert forall x :: x in order ==> cs[i].position <= cs[x].position by {
        forall x | x in order
          ensures cs[i].position <= cs[x].position
        {
          var m :| 0 <= m < |order| && order[m] == x;
          assert m == 0 || cs[order[0]].position <= cs[order[m]].position;
        }
      }
      ConsKeepsOrder(cs, i, order);
    } else {
      var rest := order[1..];
      assert forall x :: x in order <==> x == order[0] || x in rest;
      assert forall k :: 0 <= k < |rest| ==> rest[k] == order[k + 1];
      InsertKeepsOrder(cs, i, rest);
      var tail := InsertByPosition(cs, i, rest);
      assert forall x :: x in tail ==> cs[order[0]].position <= cs[x].position by {
        forall x | x in tail
          ensures cs[order[0]].position <= cs[x].position
        {
          if x != i {
            var m :| 0 <= m < |rest| && rest[m] == x;
            assert order[m + 1] == x;
          }
        }
      }
      assert order[0] !in tail by {
        forall m | 0 <= m < |rest|
          ensures rest[m] != order[0]
        {
          assert rest[m] == order[m + 1];
        }
      }
      ConsKeepsOrder(cs, order[0], tail);
    }
  }

  /** Putting an index in front of a position order keeps it one, when the
      index is new and its cell starts no later than any listed one. */
  lemma ConsKeepsOrder(cs: seq<GridCell>, h: nat, tail: seq<nat>)
    requires h < |cs| && InRange(cs, tail) && h !in tail
    requires DistinctIndexes(tail) && SortedByPosition(cs, tail)
    requires forall x :: x in tail ==> cs[h].position <= cs[x].position
    ensures InRange(cs, [h] + tail) && DistinctIndexes([h] + tail)
    ensures SortedByPosition(cs, [h] + tail)
  {
    var r := [h] + tail;
    forall k, l | 0 <= k < l < |r|
      ensures r[k] != r[l] && cs[r[k]].position <= cs[r[l]].position
    {
      assert r[l] == tail[l - 1] && tail[l - 1] in tail;
      if k > 0 {
        assert r[k] == tail[k - 1];
      }
    }
  }

  /** The sort lists every cell once, in position order. */
  lemma {:induction false} PositionOrderIsSorted(cs: seq<GridCell>, n: nat)
    requires n <= |cs|
    ensures InRange(cs, PositionOrder(cs, n)) && DistinctIndexes(PositionOrder(cs, n))
    ensures SortedByPosition(cs, PositionOrder(cs, n))
    ensures n == |cs| ==> IsPositionOrder(cs, PositionOrder(cs, n))
  {
    if n > 0 {
      PositionOrderIsSorted(cs, n - 1);
      InsertKeepsOrder(cs, n - 1, PositionOrder(cs, n - 1));
    }
  }

  // ---------------------------------------------------------------------
  // Overlap fix (`fixOverlaps`)

  /** How a cell that runs into the next one is cut: as written the new
      duration is the next cell's start (an absolute position); the
      corrected cut is the gap between the two starts. */
  datatype TrimRule = AbsoluteEnd | RelativeEnd

  function TrimmedDuration(rule: TrimRule, cell: GridCell, next: GridCell): real
  {
    match rule
    case AbsoluteEnd => next.position
    case RelativeEnd => next.position - cell.position
  }

  /** The cells after the first `k` adjacent pairs of `order` are visited. */
  function PairsTrimmed(cs: seq<GridCell>, order: seq<nat>, rule: TrimRule, k: nat): (r: seq<GridCell>)
    requires InRange(cs, order) && k < |order|
    ensures |r| == |cs|
  {
    if k == 0 then cs
    else
      var prev := PairsTrimmed(cs, order, rule, k - 1);
      var i, j := order[k - 1], order[k];
      if End(prev[i]) > prev[j].position then prev[i := prev[i].(duration := TrimmedDuration(rule, prev[i], prev[j]))]
      else prev
  }

  /** The update calls made while visiting those pairs. */
  function PairsEvents(cs: seq<GridCell>, order: seq<nat>, rule: TrimRule, k: nat): seq<ScrollEvent>
    requires InRange(cs, order) && k < |order|
  {
    if k == 0 then []
    else
      var prev := PairsTrimmed(cs, order, rule, k - 1);
      var i, j := order[k - 1], order[k];
      PairsEvents(cs, order, rule, k - 1) +
        if End(prev[i]) > prev[j].position then [Updated(PairsTrimmed(cs, order, rule, k)[i], i)] else []
  }

  /** Visiting pairs only changes durations, and each cell is changed only
      on its own visit: cells not yet visited are as they were. */
  lemma {:induction false} PairsTrimmedFrame(cs: seq<GridCell>, order: seq<nat>, rule: TrimRule, k: nat)
    requires InRange(cs, order) && DistinctIndexes(order) && k < |order|
    ensures var r := PairsTrimmed(cs, order, rule, k);
      (forall x :: 0 <= x < |cs| ==> r[x] == cs[x].(duration := r[x].duration)) &&
      (forall m :: k <= m < |order| ==> r[order[m]] == cs[order[m]])
  {
    if k > 0 {
      PairsTrimmedFrame(cs, order, rule, k - 1);
    }
  }

  /** With the corrected cut, every visited cell ends no later than the next
      cell in position order starts, and a cut never lengthens a cell nor
      makes it negative. */
  lemma PairsTrimmedSeparates(cs: seq<GridCell>, order: seq<nat>, k: nat)
    requires IsPositionOrder(cs, order) && k < |order|
    ensures var r := PairsTrimmed(cs, order, RelativeEnd, k);
      (forall m :: 0 <= m < k ==> End(r[order[m]]) <= cs[order[m + 1]].position) &&
      (forall x :: 0 <= x < |cs| ==> r[x] == cs[x] || 0.0 <= r[x].duration < cs[x].duration)
  {
    PairsTrimmedEnds(cs, order, k);
    PairsTrimmedShortens(cs, order, k);
  }

  /** Each visited cell ends no later than the next one starts. */
  lemma {:induction false} PairsTrimmedEnds(cs: seq<GridCell>, order: seq<nat>, k: nat)
    requires IsPositionOrder(cs, order) && k < |order|
    ensures var r := PairsTrimmed(cs, order, RelativeEnd, k);
      forall m :: 0 <= m < k ==> End(r[order[m]]) <= cs[order[m + 1]].position
  {
    if k > 0 {
      PairsTrimmedEnds(cs, order, k - 1);
      PairsTrimmedFrame(cs, order, RelativeEnd, k - 1);
      PairsTrimmedStep(cs, order, RelativeEnd, k);
      var prev := PairsTrimmed(cs, order, RelativeEnd, k - 1);
      var r := PairsTrimmed(cs, order, RelativeEnd, k);
      var i, j := order[k - 1], order[k];
      assert prev[j] == cs[j];
      forall m | 0 <= m < k
        ensures End(r[order[m]]) <= cs[order[m + 1]].position
      {
        if m < k - 1 {
          assert order[m] != i;
          assert r[order[m]] == prev[order[m]];
        }
      }
    }
  }

  /** One more pair changes at most its first cell, and that only by the cut. */
  lemma PairsTrimmedStep(cs: seq<GridCell>, order: seq<nat>, rule: TrimRule, k: nat)
    requires InRange(cs, order) && 0 < k < |order|
    ensures var prev := PairsTrimmed(cs, order, rule, k - 1);
      var r := PairsTrimmed(cs, order, rule, k);
      var i, j := order[k - 1], order[k];
      (forall x :: 0 <= x < |cs| && x != i ==> r[x] == prev[x]) &&
      r[i] == if End(prev[i]) > prev[j].position then prev[i].(duration := TrimmedDuration(rule, prev[i], prev[j])) else prev[i]
  {
  }

  /** The corrected cut shortens a cell without making it negative. */
  lemma {:induction false} PairsTrimmedShortens(cs: seq<GridCell>, order: seq<nat>, k: nat)
    requires IsPositionOrder(cs, order) && k < |order|
    ensures var r := PairsTrimmed(cs, order, RelativeEnd, k);
      forall x :: 0 <= x < |cs| ==> r[x] == cs[x] || 0.0 <= r[x].duration < cs[x].duration
  {
    if k > 0 {
      PairsTrimmedShortens(cs, order, k - 1);
      PairsTrimmedFrame(cs, order, RelativeEnd, k - 1);
      var prev := PairsTrimmed(cs, order, RelativeEnd, k - 1);
      var i, j := order[k - 1], order[k];
      assert prev[i] == cs[i] && prev[j] == cs[j];
      assert cs[i].position <= cs[j].position;
      PairsTrimmedStep(cs, order, RelativeEnd, k);
      var r := PairsTrimmed(cs, order, RelativeEnd, k);
      forall x | 0 <= x < |cs|
        ensures r[x] == cs[x] || 0.0 <= r[x].duration < cs[x].duration
      {
        if x != i {
          assert r[x] == prev[x];
        }
      }
    }
  }

  /** The corrected overlap fix on a whole track: afterwards no cell runs
      into any cell after it in position order. */
  lemma FixedPairsDoNotOverlap(cs: seq<GridCell>, order: seq<nat>)
    requires IsPositionOrder(cs, order) && |cs| > 1
    ensures var r := PairsTrimmed(cs, order, RelativeEnd, |order| - 1);
      (forall m, m' :: 0 <= m < m' < |order| ==> End(r[order[m]]) <= r[order[m']].position) &&
      (forall x :: 0 <= x < |cs| ==> r[x] == cs[x].(duration := r[x].duration))
  {
    var n := |order|;
    PairsTrimmedSeparates(cs, order, n - 1);
    PairsTrimmedFrame(cs, order, RelativeEnd, n - 1);
    var r := PairsTrimmed(cs, order, RelativeEnd, n - 1);
    forall m, m' | 0 <= m < m' < n
      ensures End(r[order[m]]) <= r[order[m']].position
    {
      if m == n - 1 {
      } else {
        assert End(r[order[m]]) <= cs[order[m + 1]].position;
        assert cs[order[m + 1]].position <= cs[order[m']].position;
      }
    }
  }

  /** As written, a cut cell that does not start at zero still runs into
      the next one: its new end is its start plus the next cell's start. */
  lemma AbsoluteTrimKeepsOverlap(cs: seq<GridCell>, order: seq<nat>, k: nat)
    requires IsPositionOrder(cs, order) && k + 1 < |order|
    requires End(cs[order[k]]) > cs[order[k + 1]].position && cs[order[k]].position > 0.0
    ensures var r := PairsTrimmed(cs, order, AbsoluteEnd, k + 1);
      r[order[k]].duration == cs[order[k + 1]].position &&
      End(r[order[k]]) > r[order[k + 1]].position
  {
    PairsTrimmedFrame(cs, order, AbsoluteEnd, k);
    PairsTrimmedFrame(cs, order, AbsoluteEnd, k + 1);
  }

  /** `fixOverlaps` on a track with the given cut: nothing to do for fewer
      than two cells. The view runs it with `AbsoluteEnd`, as written. */
  function FixedOverlaps(cs: seq<GridCell>, rule: TrimRule): (r: seq<GridCell>)
    ensures |r| == |cs|
  {
    if |cs| <= 1 then cs else PairsTrimmed(cs, PositionOrder(cs, |cs|), rule, |cs| - 1)
  }

  function FixedOverlapsEvents(cs: seq<GridCell>, rule: TrimRule): seq<ScrollEvent>
  {
    if |cs| <= 1 then [] else PairsEvents(cs, PositionOrder(cs, |cs|), rule, |cs| - 1)
  }

  /** Ends that do not pass later starts in the order, read back on cell
      indexes: a cell ends before any cell that starts strictly later. */
  lemma ApartByPosition(cs: seq<GridCell>, order: seq<nat>, r: seq<GridCell>)
    requires IsPositionOrder(cs, order) && |r| == |cs|
    requires forall m, m' :: 0 <= m < m' < |order| ==> End(r[order[m]]) <= r[order[m']].position
    ensures forall x, y :: 0 <= x < |cs| && 0 <= y < |cs| && cs[x].position < cs[y].position ==>
      End(r[x]) <= r[y].position
  {
    forall x, y | 0 <= x < |cs| && 0 <= y < |cs| && cs[x].position < cs[y].position
      ensures End(r[x]) <= r[y].position
    {
      var m := RankOf(cs, order, x);
      var m' := RankOf(cs, order, y);
    }
  }

  /** The place of a cell index in a position order. */
  function RankOf(cs: seq<GridCell>, order: seq<nat>, x: nat): (m: nat)
    requires IsPositionOrder(cs, order) && x < |cs|
    ensures m < |order| && order[m] == x
  {
    assert x in order;
    var m :| 0 <= m < |order| && order[m] == x;
    m
  }

  /** The overlap fix keeps identities and starts, never lengthens a cell,
      and leaves the track free of overlaps in position order. */
  lemma FixedOverlapsFacts(cs: seq<GridCell>)
    ensures var r := FixedOverlaps(cs, RelativeEnd);
      (forall x :: 0 <= x < |cs| ==> r[x] == cs[x].(duration := r[x].duration)) &&
      (forall x :: 0 <= x < |cs| ==> r[x] == cs[x] || 0.0 <= r[x].duration < cs[x].duration) &&
      (DistinctIds(cs) ==> DistinctIds(r)) &&
      (forall x, y :: 0 <= x < |cs| && 0 <= y < |cs| && cs[x].position < cs[y].position ==>
         End(r[x]) <= r[y].position)
  {
    if |cs| > 1 {
      var order := PositionOrder(cs, |cs|);
      PositionOrderIsSorted(cs, |cs|);
      FixedPairsDoNotOverlap(cs, order);
      PairsTrimmedSeparates(cs, order, |order| - 1);
      ApartByPosition(cs, order, FixedOverlaps(cs, RelativeEnd));
    }
  }

  /** One pair of `fixOverlaps` on its own: a cell that runs into the next
      one is cut by the rule; any other cell is kept. */
  function Cut(rule: TrimRule, cell: GridCell, next: GridCell): GridCell
  {
    if End(cell) > next.position then cell.(duration := TrimmedDuration(rule, cell, next)) else cell
  }

  /** The cell a visit reaches is cut against the next cell as both were
      at the start: neither has been visited yet. */
  lemma PairsTrimmedVisit(cs: seq<GridCell>, order: seq<nat>, rule: TrimRule, k: nat)
    requires InRange(cs, order) && DistinctIndexes(order) && 0 < k < |order|
    ensures PairsTrimmed(cs, order, rule, k)[order[k - 1]] == Cut(rule, cs[order[k - 1]], cs[order[k]])
  {
    PairsTrimmedFrame(cs, order, rule, k - 1);
    PairsTrimmedStep(cs, order, rule, k);
  }

  /** A later visit leaves a cell visited before it alone. */
  lemma PairsTrimmedKeepsVisited(cs: seq<GridCell>, order: seq<nat>, rule: TrimRule, k: nat, m: nat)
    requires InRange(cs, order) && DistinctIndexes(order) && m + 1 < k < |order|
    ensures PairsTrimmed(cs, order, rule, k)[order[m]] == PairsTrimmed(cs, order, rule, k - 1)[order[m]]
  {
    PairsTrimmedStep(cs, order, rule, k);
    assert order[m] != order[k - 1];
  }

  /** Each visited cell is judged against the next cell's original start in
      the order, whatever was cut before it. */
  lemma {:induction false} PairsTrimmedClosedForm(cs: seq<GridCell>, order: seq<nat>, rule: TrimRule, k: nat)
    requires InRange(cs, order) && DistinctIndexes(order) && k < |order|
    ensures var r := PairsTrimmed(cs, order, rule, k);
      forall m :: 0 <= m < k ==> r[order[m]] == Cut(rule, cs[order[m]], cs[order[m + 1]])
  {
    if k > 0 {
      PairsTrimmedClosedForm(cs, order, rule, k - 1);
      var r := PairsTrimmed(cs, order, rule, k);
      forall m | 0 <= m < k
        ensures r[order[m]] == Cut(rule, cs[order[m]], cs[order[m + 1]])
      {
        if m < k - 1 {
          PairsTrimmedKeepsVisited(cs, order, rule, k, m);
        } else {
          PairsTrimmedVisit(cs, order, rule, k);
        }
      }
    }
  }

  /** All pairs visited: every cell but the last in the order is cut against
      its successor, and the last is kept. */
  lemma PairsTrimmedWhole(cs: seq<GridCell>, order: seq<nat>, rule: TrimRule)
    requires InRange(cs, order) && DistinctIndexes(order) && 1 < |order|
    ensures var r := PairsTrimmed(cs, order, rule, |order| - 1);
      (forall m :: 0 <= m < |order| - 1 ==> r[order[m]] == Cut(rule, cs[order[m]], cs[order[m + 1]])) &&
      r[order[|order| - 1]] == cs[order[|order| - 1]]
  {
    PairsTrimmedClosedForm(cs, order, rule, |order| - 1);
    PairsTrimmedFrame(cs, order, rule, |order| - 1);
  }

  /** The overlap fix with either cut, read cell by cell: in position order,
      each cell is cut against the start of the cell after it, and the last
      cell is kept. */
  lemma FixedOverlapsClosedForm(cs: seq<GridCell>, rule: TrimRule)
    requires |cs| > 1
    ensures var order := PositionOrder(cs, |cs|);
      var r := FixedOverlaps(cs, rule);
      IsPositionOrder(cs, order) &&
      (forall m :: 0 <= m < |cs| - 1 ==> r[order[m]] == Cut(rule, cs[order[m]], cs[order[m + 1]])) &&
      r[order[|cs| - 1]] == cs[order[|cs| - 1]]
  {
    PositionOrderIsSorted(cs, |cs|);
    PairsTrimmedWhole(cs, PositionOrder(cs, |cs|), rule);
  }

  /** Either cut keeps every identity and start and changes durations only,
      so distinct identities stay distinct. */
  lemma FixedOverlapsKeepsCells(cs: seq<GridCell>, rule: TrimRule)
    ensures var r := FixedOverlaps(cs, rule);
      (forall x :: 0 <= x < |cs| ==> r[x] == cs[x].(duration := r[x].duration)) &&
      (DistinctIds(cs) ==> DistinctIds(r))
  {
    if |cs| > 1 {
      PositionOrderIsSorted(cs, |cs|);
      PairsTrimmedFrame(cs, PositionOrder(cs, |cs|), rule, |cs| - 1);
    }
    var r := FixedOverlaps(cs, rule);
    assert forall x :: 0 <= x < |cs| ==> r[x].id == cs[x].id;
  }

  /** As written, the cut can leave a cell running into the next one (a
      cell at 1 lasting 2 before a cell at 2 keeps duration 2) and can even
      lengthen it (before a cell at 2.5 it grows to 2.5); the corrected cut
      gives 1 and 1.5. */
  lemma AsWrittenFixExamples()
    ensures var a, b := GridCell("a", 1.0, 2.0, false), GridCell("b", 2.0, 1.0, false);
      FixedOverlaps([a, b], AbsoluteEnd)[0].duration == 2.0 && End(FixedOverlaps([a, b], AbsoluteEnd)[0]) > b.position &&
      FixedOverlaps([a, b], RelativeEnd)[0].duration == 1.0
    ensures var a, c := GridCell("a", 1.0, 2.0, false), GridCell("c", 2.5, 1.0, false);
      FixedOverlaps([a, c], AbsoluteEnd)[0].duration == 2.5 && FixedOverlaps([a, c], RelativeEnd)[0].duration == 1.5
  {
    var a, b, c := GridCell("a", 1.0, 2.0, false), GridCell("b", 2.0, 1.0, false), GridCell("c", 2.5, 1.0, false);
    TwoCellsFixed([a, b], AbsoluteEnd);
    TwoCellsFixed([a, b], RelativeEnd);
    TwoCellsFixed([a, c], AbsoluteEnd);
    TwoCellsFixed([a, c], RelativeEnd);
  }

  /** Two cells already in position order: only the first can be cut. */
  lemma TwoCellsFixed(cs: seq<GridCell>, rule: TrimRule)
    requires |cs| == 2 && cs[0].position <= cs[1].position
    ensures FixedOverlaps(cs, rule)[0] == Cut(rule, cs[0], cs[1])
  {
    TwoCellsInOrder(cs);
    assert PairsTrimmed(cs, [0, 1], rule, 0) == cs;
    assert FixedOverlaps(cs, rule) == PairsTrimmed(cs, [0, 1], rule, 1);
  }

  /** Two cells already in position order are visited in that order. */
  lemma TwoCellsInOrder(cs: seq<GridCell>)
    requires |cs| == 2 && cs[0].position <= cs[1].position
    ensures PositionOrder(cs, 2) == [0, 1]
  {
    assert PositionOrder(cs, 1) == InsertByPosition(cs, 0, []) == [0];
    assert [0][1..] == [];
    assert InsertByPosition(cs, 1, []) == [1];
    assert InsertByPosition(cs, 1, [0]) == [0] + InsertByPosition(cs, 1, [0][1..]);
  }

  // ---------------------------------------------------------------------
  // Ruler (`updateMeasure`)

  /** The new bar count: at least the old one, enough bars to fill the frame
      and enough to reach the far-most cell end. */
  function MeasureBarCount(barCount: int, frameWidth: real, measureWidth: real, cs: seq<GridCell>): (r: int)
    requires measureWidth > 0.0
    ensures r >= barCount && r >= Ceil(frameWidth / measureWidth) && r >= FarMostBar(cs)
    ensures r == barCount || r == Ceil(frameWidth / measureWidth) || r == FarMostBar(cs)
  {
    var screen := Ceil(frameWidth / measureWidth);
    var forCells := FarMostBar(cs);
    var most := if screen > forCells then screen else forCells;
    if barCount > most then barCount else most
  }

  /** The new bar count fills the frame. */
  lemma MeasureBarCountFillsFrame(barCount: int, frameWidth: real, measureWidth: real, cs: seq<GridCell>)
    requires measureWidth > 0.0
    ensures MeasureBarCount(barCount, frameWidth, measureWidth, cs) as real * measureWidth >= frameWidth
  {
    var n := MeasureBarCount(barCount, frameWidth, measureWidth, cs);
    var q := frameWidth / measureWidth;
    assert q <= n as real;
    CoveredBy(n as real, q, frameWidth, measureWidth);
  }

  /** A count at least the frame's width in bars covers the frame. */
  lemma CoveredBy(n: real, q: real, frameWidth: real, measureWidth: real)
    requires measureWidth > 0.0 && q == frameWidth / measureWidth && q <= n
    ensures n * measureWidth >= frameWidth
  {
    assert frameWidth == q * measureWidth;
    NonNegativeProduct(n - q, measureWidth);
  }

  /** Any count at least the frame's rounded-up bar count covers the frame. */
  lemma AtLeastScreenBarsCover(n: int, frameWidth: real, measureWidth: real)
    requires measureWidth > 0.0 && n >= Ceil(frameWidth / measureWidth)
    ensures n as real * measureWidth >= frameWidth
  {
    ScreenBarsCover(frameWidth, measureWidth);
    MoreBarsCover(Ceil(frameWidth / measureWidth), n, frameWidth, measureWidth);
  }

  /** The new bar count reaches every cell end. */
  lemma MeasureBarCountReachesCells(barCount: int, frameWidth: real, measureWidth: real, cs: seq<GridCell>)
    requires measureWidth > 0.0
    ensures forall c :: c in cs ==> End(c) <= MeasureBarCount(barCount, frameWidth, measureWidth, cs) as real
  {
    assert FarMostBar(cs) <= MeasureBarCount(barCount, frameWidth, measureWidth, cs);
  }

  /** Enough bars to fill the frame cover it. */
  lemma ScreenBarsCover(frameWidth: real, measureWidth: real)
    requires measureWidth > 0.0
    ensures Ceil(frameWidth / measureWidth) as real * measureWidth >= frameWidth
  {
    var screen := Ceil(frameWidth / measureWidth);
    assert frameWidth == frameWidth / measureWidth * measureWidth;
    NonNegativeProduct(screen as real - frameWidth / measureWidth, measureWidth);
  }

  /** More bars cover at least as much. */
  lemma MoreBarsCover(a: int, b: int, frameWidth: real, measureWidth: real)
    requires measureWidth > 0.0 && a <= b && a as real * measureWidth >= frameWidth
    ensures b as real * measureWidth >= frameWidth
  {
    NonNegativeProduct((b - a) as real, measureWidth);
  }

  /** The new bar count is the least one with those three properties. */
  lemma MeasureBarCountLeast(barCount: int, frameWidth: real, measureWidth: real, cs: seq<GridCell>, n: int)
    requires measureWidth > 0.0 && barCount >= 0
    requires n >= barCount && n as real * measureWidth >= frameWidth
    requires forall c :: c in cs ==> End(c) <= n as real
    ensures MeasureBarCount(barCount, frameWidth, measureWidth, cs) <= n
  {
    ScreenBarsAtMost(frameWidth, measureWidth, n);
    FarMostBarAtMost(cs, n);
  }

  /** Any bar count that fills the frame is at least the screen's. */
  lemma ScreenBarsAtMost(frameWidth: real, measureWidth: real, n: int)
    requires measureWidth > 0.0 && n as real * measureWidth >= frameWidth
    ensures Ceil(frameWidth / measureWidth) <= n
  {
    assert n as real >= frameWidth / measureWidth by {
      assert n as real == n as real * measureWidth / measureWidth;
    }
  }

  /** Rounding up never passes an integer bound. A helper for
      `FarMostBarAtMost`, which needs it for a cell chosen by a witness. */
  lemma CeilAtMost(x: real, n: int)
    requires x <= n as real
    ensures Ceil(x) <= n
  {
  }

  /** Any bar count that reaches every cell end is at least the far-most bar. */
  lemma FarMostBarAtMost(cs: seq<GridCell>, n: int)
    requires n >= 0
    requires forall c :: c in cs ==> End(c) <= n as real
    ensures FarMostBar(cs) <= n
  {
    var r := FarMostBar(cs);
    if cs != [] {
      var c :| c in cs && r == Ceil(End(c));
      CeilAtMost(End(c), n);
    }
  }

  /** The label of ruler column `i`, counted from zero: a bar, a bar and
      beat, or a bar, beat and sub-beat. */
  function ScrollLabel(i: nat, level: int, beats: int): MeasureLabel
    requires beats > 0
  {
    if level == 0 then BarLabel(i)
    else if level == 1 then BeatLabel(i / beats, i % beats)
    else SubbeatLabel(i / 4 / beats, i / 4 % beats, i % 4)
  }

  /** One step of the zero-based counter, each part wrapping at its size. */
  function ScrollTick(l: MeasureLabel, beats: int): MeasureLabel
  {
    match l
    case BarLabel(b) => BarLabel(b + 1)
    case BeatLabel(b, t) => if t + 1 >= beats then BeatLabel(b + 1, 0) else BeatLabel(b, t + 1)
    case SubbeatLabel(b, t, s) =>
      if s + 1 >= 4 then
        (if t + 1 >= beats then SubbeatLabel(b + 1, 0, 0) else SubbeatLabel(b, t + 1, 0))
      else SubbeatLabel(b, t, s + 1)
  }

  /** The closed form starts at zero and steps like the counter. */
  lemma ScrollLabelTicks(i: nat, level: int, beats: int)
    requires beats > 0
    ensures ScrollLabel(0, level, beats) ==
      if level == 0 then BarLabel(0) else if level == 1 then BeatLabel(0, 0) else SubbeatLabel(0, 0, 0)
    ensures ScrollLabel(i + 1, level, beats) == ScrollTick(ScrollLabel(i, level, beats), beats)
  {
    if level == 1 {
      DivModStep(i, beats);
    } else if level != 0 {
      DivModStep(i, 4);
      if i % 4 + 1 == 4 {
        DivModStep(i / 4, beats);
      }
    }
  }

  /** The labels of a ruler with `count` columns (one per boundary). */
  function ScrollLabels(count: nat, level: int, beats: int): (r: seq<MeasureLabel>)
    requires beats > 0
    ensures |r| == count + 1
    ensures forall i :: 0 <= i <= count ==> r[i] == ScrollLabel(i, level, beats)
  {
    seq(count + 1, i requires 0 <= i <= count => ScrollLabel(i, level, beats))
  }

  /** The counter of the label loop, read as a label for the zoom level. */
  function CounterText(level: int, bar: int, beat: int, subbeat: int): MeasureLabel
  {
    if level == 0 then BarLabel(bar)
    else if level == 1 then BeatLabel(bar, beat)
    else SubbeatLabel(bar, beat, subbeat)
  }

  /** The label loop of `updateMeasure`: a zero-based bar/beat/sub-beat
      counter read out once per column boundary. */
  method CountLabelsFromZero(count: nat, level: int, beats: int) returns (labels: seq<MeasureLabel>)
    requires beats > 0
    ensures labels == ScrollLabels(count, level, beats)
  {
    var currentBar, currentBeat, currentSubbeat := 0, 0, 0;
    labels := [];
    ScrollLabelTicks(0, level, beats);
    for i := 0 to count + 1
      invariant |labels| == i
      invariant forall m :: 0 <= m < i ==> labels[m] == ScrollLabel(m, level, beats)
      invariant CounterText(level, currentBar, currentBeat, currentSubbeat) == ScrollLabel(i, level, beats)
    {
      var text: MeasureLabel;
      if level == 0 {
        text := BarLabel(currentBar);
        currentBar := currentBar + 1;
      } else if level == 1 {
        text := BeatLabel(currentBar, currentBeat);
        currentBeat := currentBeat + 1;
        if currentBeat >= beats {
          currentBar := currentBar + 1;
          currentBeat := 0;
        }
      } else {
        text := SubbeatLabel(currentBar, currentBeat, currentSubbeat);
        currentSubbeat := currentSubbeat + 1;
        if currentSubbeat >= 4 {
          currentSubbeat := 0;
          currentBeat := currentBeat + 1;
          if currentBeat >= beats {
            currentBar := currentBar + 1;
            currentBeat := 0;
          }
        }
      }
      ScrollLabelTicks(i, level, beats);
      labels := labels + [text];
    }
  }

  // ---------------------------------------------------------------------
  // Pinch zoom with an integer level

  /** The zoom part of the view state. */
  datatype LevelZoom = LevelZoom(level: int, measureWidth: real, minMeasureWidth: real, maxMeasureWidth: real)

  predicate LevelZoomBounds(z: LevelZoom, maxZoomLevel: int)
  {
    0 <= z.level <= maxZoomLevel && 0.0 < z.minMeasureWidth <= z.measureWidth <= z.maxMeasureWidth
  }

  /** `didZoom(pinch:)` on a two-finger pinch: scale within the bounds, then
      move one level in at the upper bound or out at the lower one, and
      reset the bounds for the new level. */
  function LevelPinched(z: LevelZoom, zoomSpeed: real, pinchScale: real, beats: int, maxZoomLevel: int): LevelZoom
    requires LevelZoomBounds(z, maxZoomLevel) && beats > 0
  {
    var w := ScaledWidth(z.measureWidth, z.minMeasureWidth, z.maxMeasureWidth, zoomSpeed, pinchScale);
    if w >= z.maxMeasureWidth && z.level < maxZoomLevel then
      var level := z.level + 1;
      var minWidth := if level == 1 then z.maxMeasureWidth / beats as real else z.maxMeasureWidth / 4.0;
      LevelZoom(level, minWidth, minWidth, z.maxMeasureWidth)
    else if w <= z.minMeasureWidth && z.level > 0 then
      var level := z.level - 1;
      var maxWidth := if level == 0 then z.minMeasureWidth * beats as real else z.minMeasureWidth * 4.0;
      LevelZoom(level, maxWidth, z.minMeasureWidth, maxWidth)
    else LevelZoom(z.level, w, z.minMeasureWidth, z.maxMeasureWidth)
  }

  /** A pinch keeps the level within `0 ... maxZoomLevel` and the width
      within its bounds, moves at most one level, and only scales when the
      level stays. */
  lemma LevelPinchKeepsBounds(z: LevelZoom, zoomSpeed: real, pinchScale: real, beats: int, maxZoomLevel: int)
    requires LevelZoomBounds(z, maxZoomLevel) && beats > 0
    ensures var r := LevelPinched(z, zoomSpeed, pinchScale, beats, maxZoomLevel);
      LevelZoomBounds(r, maxZoomLevel) &&
      z.level - 1 <= r.level <= z.level + 1 &&
      (r.level == z.level ==>
         r.measureWidth == ScaledWidth(z.measureWidth, z.minMeasureWidth, z.maxMeasureWidth, zoomSpeed, pinchScale) &&
         r.minMeasureWidth == z.minMeasureWidth && r.maxMeasureWidth == z.maxMeasureWidth)
  {
    ScaledWidthInBounds(z.measureWidth, z.minMeasureWidth, z.maxMeasureWidth, zoomSpeed, pinchScale);
    ShareOfWidth(z.maxMeasureWidth, beats as real);
    MultipleOfWidth(z.minMeasureWidth, beats as real);
  }

  /** A positive width shared among at least one part stays positive and
      grows no wider. */
  lemma ShareOfWidth(w: real, b: real)
    requires w > 0.0 && b >= 1.0
    ensures 0.0 < w / b <= w
  {
    assert w / b * b == w;
    NonNegativeProduct(w / b, b - 1.0);
    assert w / b * (b - 1.0) == w / b * b - w / b;
  }

  /** A positive width repeated at least once grows no narrower. */
  lemma MultipleOfWidth(w: real, b: real)
    requires w > 0.0 && b >= 1.0
    ensures w <= w * b
  {
    NonNegativeProduct(w, b - 1.0);
    assert w * (b - 1.0) == w * b - w;
  }

  /** Between the bar, beat and sub-beat levels a level switch keeps the
      on-screen width of a bar: the ruler changes its columns, not its
      scale. */
  lemma LevelPinchBarWidth(z: LevelZoom, zoomSpeed: real, pinchScale: real, beats: int, maxZoomLevel: int)
    requires LevelZoomBounds(z, maxZoomLevel) && beats > 0
    ensures var r := LevelPinched(z, zoomSpeed, pinchScale, beats, maxZoomLevel);
      var w := ScaledWidth(z.measureWidth, z.minMeasureWidth, z.maxMeasureWidth, zoomSpeed, pinchScale);
      r.level != z.level && r.level <= 2 && z.level <= 2 ==>
        BarWidthAt(r.level, r.measureWidth, beats) == BarWidthAt(z.level, w, beats)
  {
    ScaledWidthInBounds(z.measureWidth, z.minMeasureWidth, z.maxMeasureWidth, zoomSpeed, pinchScale);
    var b := beats as real;
    var max, min := z.maxMeasureWidth, z.minMeasureWidth;
    assert max / b * b == max;
    assert max / 4.0 * (b * 4.0) == max * b;
    assert min * 4.0 * b == min * (b * 4.0);
  }

  /** The arithmetic of one `didZoom` step, as the view performs it. */
  method LevelPinchStep(z: LevelZoom, zoomSpeed: real, pinchScale: real, beats: int, maxZoomLevel: int)
    returns (r: LevelZoom)
    requires LevelZoomBounds(z, maxZoomLevel) && beats > 0
    ensures r == LevelPinched(z, zoomSpeed, pinchScale, beats, maxZoomLevel)
  {
    var width, minWidth, maxWidth, level := z.measureWidth, z.minMeasureWidth, z.maxMeasureWidth, z.level;
    var scale := (pinchScale - 1.0) * zoomSpeed + 1.0;
    if maxWidth / width < scale {
      scale := maxWidth / width;
    }
    if scale < minWidth / width {
      scale := minWidth / width;
    }
    width := width * scale;
    assert width == ScaledWidth(z.measureWidth, z.minMeasureWidth, z.maxMeasureWidth, zoomSpeed, pinchScale);
    if width >= maxWidth && level < maxZoomLevel {
      level := level + 1;
      if level == 1 {
        minWidth := maxWidth / beats as real;
      } else {
        minWidth := maxWidth / 4.0;
      }
      width := minWidth;
    } else if width <= minWidth && level > 0 {
      level := level - 1;
      if level == 0 {
        maxWidth := minWidth * beats as real;
      } else {
        maxWidth := minWidth * 4.0;
      }
      width := maxWidth;
    }
    r := LevelZoom(level, width, minWidth, maxWidth);
  }

  /** The pair loop of `fixOverlaps` as written: a cell that runs into the
      next one gets the next one's start as its duration. The index of the
      visited cell in `cells` is its index in the order, since
      `firstIndex(of:)` finds that very cell. */
  method TrimPairs(cs: seq<GridCell>, order: seq<nat>) returns (trimmed: seq<GridCell>, calls: seq<ScrollEvent>)
    requires InRange(cs, order) && |order| > 1
    ensures trimmed == PairsTrimmed(cs, order, AbsoluteEnd, |order| - 1)
    ensures calls == PairsEvents(cs, order, AbsoluteEnd, |order| - 1)
  {
    trimmed, calls := cs, [];
    for index := 0 to |order| - 1
      invariant trimmed == PairsTrimmed(cs, order, AbsoluteEnd, index)
      invariant calls == PairsEvents(cs, order, AbsoluteEnd, index)
    {
      var cell, next := trimmed[order[index]], trimmed[order[index + 1]];
      if End(cell) > next.position {
        var i := order[index];
        trimmed := trimmed[i := trimmed[i].(duration := next.position)];
        calls := calls + [Updated(trimmed[i], i)];
      }
    }
  }

  /** The cells after a drag moves the cell at `index` by `delta` bars; a
      position before zero is held at zero. */
  function MovedBy(cs: seq<GridCell>, index: nat, delta: real): seq<GridCell>
    requires index < |cs|
  {
    cs[index := cs[index].(position := ClampedPosition(cs[index].position + delta))]
  }

  /** The cells after a drag grows the cell at `index` by `delta` bars. */
  function ResizedBy(cs: seq<GridCell>, index: nat, delta: real): seq<GridCell>
    requires index < |cs|
  {
    cs[index := cs[index].(duration := cs[index].duration + delta)]
  }

  /** The calls of a selection: one `didSelect` when the cell is found. */
  function SelectCalls(cs: seq<GridCell>, id: Id): seq<ScrollEvent>
  {
    var found := IndexOfId(cs, id);
    if found.Some? then [Selected(SelectedBy(cs, id)[found.value], found.value)] else []
  }

  class ScrollView {
    var cells: seq<GridCell>
    var selectedCellIndex: Option<int>
    var measureBarCount: int
    var measureCount: int
    var measureWidth: real
    var minMeasureWidth: real
    var maxMeasureWidth: real
    var timeSignatureBeatCount: int
    var zoomSpeed: real
    var zoomLevel: int
    var minZoomLevel: int
    var maxZoomLevel: int
    var measureLabels: seq<MeasureLabel>
    var playheadPosition: real
    var rangeheadPosition: real
    /** Delegate calls made so far, oldest first. */
    var events: seq<ScrollEvent>

    ghost predicate Valid()
      reads this
    {
      DistinctIds(cells) && timeSignatureBeatCount > 0 && measureBarCount >= 0 && measureCount >= 0 &&
      LevelZoomBounds(Zoom(), maxZoomLevel)
    }

    function Zoom(): LevelZoom
      reads this
    {
      LevelZoom(zoomLevel, measureWidth, minMeasureWidth, maxMeasureWidth)
    }

    /** The ruler part of the state. */
    ghost function Ruler(): (int, int, seq<MeasureLabel>)
      reads this
    {
      (measureBarCount, measureCount, measureLabels)
    }

    /** What editing cells leaves alone. */
    ghost function Settings(): (LevelZoom, real, int, int, int, real, real)
      reads this
    {
      (Zoom(), zoomSpeed, timeSignatureBeatCount, minZoomLevel, maxZoomLevel, playheadPosition, rangeheadPosition)
    }

    /** A drag in bars, by `durationForTranslation(_:)` as written. */
    function DurationOf(translation: real): real
      reads this
      requires Valid()
    {
      DurationForTranslationAsWritten(translation, measureWidth, zoomLevel, timeSignatureBeatCount)
    }

    /** The stored property defaults of `RBScrollView`. */
    constructor ()
      ensures Valid()
      ensures cells == [] && selectedCellIndex == None && events == []
      ensures measureBarCount == 4 && measureCount == 4 && measureLabels == []
      ensures Zoom() == LevelZoom(0, 100.0, 50.0, 150.0) && zoomSpeed == 0.4
      ensures timeSignatureBeatCount == 4 && minZoomLevel == 0 && maxZoomLevel == 2
      ensures playheadPosition == 0.0 && rangeheadPosition == 0.0
    {
      cells := [];
      selectedCellIndex := None;
      measureBarCount := 4;
      measureCount := 4;
      measureWidth := 100.0;
      minMeasureWidth := 50.0;
      maxMeasureWidth := 150.0;
      timeSignatureBeatCount := 4;
      zoomSpeed := 0.4;
      zoomLevel := 0;
      minZoomLevel := 0;
      maxZoomLevel := 2;
      measureLabels := [];
      playheadPosition := 0.0;
      rangeheadPosition := 0.0;
      events := [];
    }

    /** `updateMeasure`: grow the bar count to cover the frame and the cells,
        derive the column count from the zoom level, and relabel the ruler
        from zero. */
    method UpdateMeasure(frameWidth: real)
      requires Valid()
      modifies this
      ensures Valid()
      ensures measureBarCount == MeasureBarCount(old(measureBarCount), frameWidth, measureWidth, cells)
      ensures measureCount == measureBarCount * ColumnsPerBar(zoomLevel, timeSignatureBeatCount)
      ensures measureLabels == ScrollLabels(measureCount, zoomLevel, timeSignatureBeatCount)
      ensures cells == old(cells) && selectedCellIndex == old(selectedCellIndex) && events == old(events)
      ensures Settings() == old(Settings())
    {
      measureBarCount := MeasureBarCount(measureBarCount, frameWidth, measureWidth, cells);
      var columns := ColumnsPerBar(zoomLevel, timeSignatureBeatCount);
      MulGap(columns, -1, measureBarCount);
      measureCount := measureBarCount * columns;
      measureLabels := CountLabelsFromZero(measureCount, zoomLevel, timeSignatureBeatCount);
    }

    /** `updateDurationOfCell(at:duration:)`. */
    method UpdateDurationOfCell(index: int, duration: real)
      requires Valid() && 0 <= index < |cells|
      modifies this
      ensures Valid()
      ensures cells == old(cells)[index := old(cells)[index].(duration := duration)]
      ensures selectedCellIndex == old(selectedCellIndex) && events == old(events)
      ensures Ruler() == old(Ruler()) && Settings() == old(Settings())
    {
      cells := cells[index := cells[index].(duration := duration)];
    }

    /** `reloadData`: take the data source's cells and flag the one at the
        selected index; the index itself is kept as it is. */
    method ReloadData(source: seq<GridCell>)
      requires Valid() && DistinctIds(source)
      modifies this
      ensures Valid()
      ensures |cells| == |source|
      ensures forall i :: 0 <= i < |source| ==> cells[i] == source[i].(isSelected := selectedCellIndex == Some(i))
      ensures selectedCellIndex == old(selectedCellIndex) && events == old(events)
      ensures Ruler() == old(Ruler()) && Settings() == old(Settings())
    {
      var loaded, _ := LoadCells(source, selectedCellIndex);
      cells := loaded;
    }

    /** Store a zoom state within the bounds of the view's levels. */
    method SetZoom(z: LevelZoom)
      requires Valid() && LevelZoomBounds(z, maxZoomLevel)
      modifies this
      ensures Valid() && Zoom() == z
      ensures cells == old(cells) && selectedCellIndex == old(selectedCellIndex) && events == old(events)
      ensures Ruler() == old(Ruler())
      ensures zoomSpeed == old(zoomSpeed) && timeSignatureBeatCount == old(timeSignatureBeatCount)
      ensures minZoomLevel == old(minZoomLevel) && maxZoomLevel == old(maxZoomLevel)
      ensures playheadPosition == old(playheadPosition) && rangeheadPosition == old(rangeheadPosition)
    {
      zoomLevel, measureWidth, minMeasureWidth, maxMeasureWidth := z.level, z.measureWidth, z.minMeasureWidth, z.maxMeasureWidth;
    }

    /** `didZoom(pinch:)`: only a two-finger pinch that began or changed
        zooms; a level change rebuilds the ruler. */
    method DidZoom(state: PanState, numberOfTouches: int, pinchScale: real, frameWidth: real)
      requires Valid()
      modifies this
      ensures Valid()
      ensures var pinches := (state == Began || state == Changed) && numberOfTouches == 2;
        (pinches ==> Zoom() == LevelPinched(old(Zoom()), old(zoomSpeed), pinchScale, old(timeSignatureBeatCount), old(maxZoomLevel))) &&
        (!pinches ==> Zoom() == old(Zoom())) &&
        (zoomLevel == old(zoomLevel) ==> Ruler() == old(Ruler())) &&
        (zoomLevel != old(zoomLevel) ==>
          measureBarCount == MeasureBarCount(old(measureBarCount), frameWidth, measureWidth, cells) &&
          measureCount == measureBarCount * ColumnsPerBar(zoomLevel, timeSignatureBeatCount) &&
          measureLabels == ScrollLabels(measureCount, zoomLevel, timeSignatureBeatCount))
      ensures cells == old(cells) && selectedCellIndex == old(selectedCellIndex) && events == old(events)
      ensures zoomSpeed == old(zoomSpeed) && timeSignatureBeatCount == old(timeSignatureBeatCount)
      ensures minZoomLevel == old(minZoomLevel) && maxZoomLevel == old(maxZoomLevel)
      ensures playheadPosition == old(playheadPosition) && rangeheadPosition == old(rangeheadPosition)
    {
      if (state == Began || state == Changed) && numberOfTouches == 2 {
        var oldZoomLevel := zoomLevel;
        var z := LevelPinchStep(Zoom(), zoomSpeed, pinchScale, timeSignatureBeatCount, maxZoomLevel);
        LevelPinchKeepsBounds(Zoom(), zoomSpeed, pinchScale, timeSignatureBeatCount, maxZoomLevel);
        SetZoom(z);
        if oldZoomLevel != zoomLevel {
          UpdateMeasure(frameWidth);
        }
      }
    }

    /** `quantize(zoomLevel:)`: snap every position to the grid step of the
        level as written, reporting each cell. */
    method Quantize(level: int)
      requires Valid()
      modifies this
      ensures Valid()
      ensures cells == SnapAll(old(cells), QuantizeRangeAsWritten(level, timeSignatureBeatCount))
      ensures events == old(events) + SnapCalls(cells)
      ensures selectedCellIndex == old(selectedCellIndex)
      ensures Ruler() == old(Ruler()) && Settings() == old(Settings())
    {
      var snapped := SnapCells(cells, QuantizeRangeAsWritten(level, timeSignatureBeatCount));
      SnapAllIdempotent(cells, QuantizeRangeAsWritten(level, timeSignatureBeatCount));
      cells := snapped;
      events := events + SnapCalls(cells);
    }

    /** `fixOverlaps` as written: visit the cells in position order and give
        each one that runs into the next the next one's start as its
        duration, reporting it. */
    method FixOverlaps()
      requires Valid()
      modifies this
      ensures Valid()
      ensures cells == FixedOverlaps(old(cells), AbsoluteEnd)
      ensures events == old(events) + FixedOverlapsEvents(old(cells), AbsoluteEnd)
      ensures selectedCellIndex == old(selectedCellIndex)
      ensures Ruler() == old(Ruler()) && Settings() == old(Settings())
    {
      FixedOverlapsKeepsCells(cells, AbsoluteEnd);
      if |cells| <= 1 {
        return;
      }
      var sorted := PositionOrder(cells, |cells|);
      var trimmed, calls := TrimPairs(cells, sorted);
      cells := trimmed;
      events := events + calls;
    }

    /** `selectCell(_:)`. */
    method SelectCell(cell: GridCell)
      requires Valid()
      modifies this
      ensures Valid()
      ensures cells == SelectedBy(old(cells), cell.id)
      ensures selectedCellIndex == SelectedIndexOf(old(cells), cell.id)
      ensures events == old(events) + SelectCalls(old(cells), cell.id)
      ensures Ruler() == old(Ruler()) && Settings() == old(Settings())
    {
      var updated, selected := MarkSelected(cells, cell.id);
      cells := updated;
      selectedCellIndex := selected;
      if selected.Some? {
        events := events + [Selected(cells[selected.value], selected.value)];
      }
    }

    /** `unselectCells`. */
    method UnselectCells()
      requires Valid()
      modifies this
      ensures Valid()
      ensures cells == Unselected(old(cells)) && selectedCellIndex == None
      ensures events == old(events) + [UnselectedAll]
      ensures Ruler() == old(Ruler()) && Settings() == old(Settings())
    {
      selectedCellIndex := None;
      cells := Unselected(cells);
      events := events + [UnselectedAll];
    }

    /** Shift the cell at `index` by a drag, never before zero, and report. */
    method MoveCellBy(index: nat, translation: real)
      requires Valid() && index < |cells|
      modifies this
      ensures Valid()
      ensures cells == MovedBy(old(cells), index, old(DurationOf(translation)))
      ensures events == old(events) + [Updated(cells[index], index)]
      ensures selectedCellIndex == old(selectedCellIndex)
      ensures Ruler() == old(Ruler()) && Settings() == old(Settings())
    {
      cells := MovedBy(cells, index, DurationOf(translation));
      events := events + [Updated(cells[index], index)];
    }

    /** Grow the cell at `index` by a drag and report. */
    method ResizeCellBy(index: nat, translation: real)
      requires Valid() && index < |cells|
      modifies this
      ensures Valid()
      ensures cells == ResizedBy(old(cells), index, old(DurationOf(translation)))
      ensures events == old(events) + [Updated(cells[index], index)]
      ensures selectedCellIndex == old(selectedCellIndex)
      ensures Ruler() == old(Ruler()) && Settings() == old(Settings())
    {
      cells := ResizedBy(cells, index, DurationOf(translation));
      events := events + [Updated(cells[index], index)];
    }

    /** `MoveCellBy`, then the overlap fix when the drag has ended. */
    method MoveAndSettle(index: nat, translation: real, ended: bool)
      requires Valid() && index < |cells|
      modifies this
      ensures Valid()
      ensures var changed := MovedBy(old(cells), index, old(DurationOf(translation)));
        var changedEvents := old(events) + [Updated(changed[index], index)];
        if ended then cells == FixedOverlaps(changed, AbsoluteEnd) && events == changedEvents + FixedOverlapsEvents(changed, AbsoluteEnd)
        else cells == changed && events == changedEvents
      ensures selectedCellIndex == old(selectedCellIndex)
      ensures Ruler() == old(Ruler()) && Settings() == old(Settings())
    {
      MoveCellBy(index, translation);
      if ended {
        FixOverlaps();
      }
    }

    /** The first phase of a drag selects the dragged cell; other phases
        leave the selection alone. Identities, hence lookups by identity,
        stay as they were. */
    method SelectOnBegin(cell: GridCell, state: PanState)
      requires Valid()
      modifies this
      ensures Valid()
      ensures cells == if state == Began then SelectedBy(old(cells), cell.id) else old(cells)
      ensures events == old(events) + if state == Began then SelectCalls(old(cells), cell.id) else []
      ensures IndexOfId(cells, cell.id) == IndexOfId(old(cells), cell.id)
      ensures selectedCellIndex == if state == Began then SelectedIndexOf(old(cells), cell.id) else old(selectedCellIndex)
      ensures Ruler() == old(Ruler()) && Settings() == old(Settings())
    {
      if state == Began {
        SelectCell(cell);
        IndexOfIdSameIds(cells, old(cells), cell.id);
      }
    }

    /** `rbScrollViewCellDidMove`: select on begin; in every phase move the
        cell by the drag (never before zero) and report it; on end, fix
        overlaps. `withinContent` is the view's frame test. */
    method CellDidMove(cell: GridCell, state: PanState, translation: real, withinContent: bool)
      requires Valid() && IsLive(cells, cell)
      modifies this
      ensures Valid()
      ensures var base := if state == Began then SelectedBy(old(cells), cell.id) else old(cells);
        var baseEvents := old(events) + if state == Began then SelectCalls(old(cells), cell.id) else [];
        var found := IndexOfId(base, cell.id);
        if !withinContent || found.None? then cells == base && events == baseEvents
        else
          var index := found.value;
          var moved := MovedBy(base, index, old(DurationOf(translation)));
          var movedEvents := baseEvents + [Updated(moved[index], index)];
          if state == Ended then cells == FixedOverlaps(moved, AbsoluteEnd) && events == movedEvents + FixedOverlapsEvents(moved, AbsoluteEnd)
          else cells == moved && events == movedEvents
      ensures selectedCellIndex == if state == Began then SelectedIndexOf(old(cells), cell.id) else old(selectedCellIndex)
      ensures Ruler() == old(Ruler()) && Settings() == old(Settings())
    {
      ghost var d := DurationOf(translation);
      SelectOnBegin(cell, state);
      assert DurationOf(translation) == d;
      if withinContent {
        var found := IndexOfId(cells, cell.id);
        if found.Some? {
          MoveAndSettle(found.value, translation, state == Ended);
        }
      }
    }

    /** `ResizeCellBy`, then the overlap fix when the drag has ended. */
    method ResizeAndSettle(index: nat, translation: real, ended: bool)
      requires Valid() && index < |cells|
      modifies this
      ensures Valid()
      ensures var changed := ResizedBy(old(cells), index, old(DurationOf(translation)));
        var changedEvents := old(events) + [Updated(changed[index], index)];
        if ended then cells == FixedOverlaps(changed, AbsoluteEnd) && events == changedEvents + FixedOverlapsEvents(changed, AbsoluteEnd)
        else cells == changed && events == changedEvents
      ensures selectedCellIndex == old(selectedCellIndex)
      ensures Ruler() == old(Ruler()) && Settings() == old(Settings())
    {
      ResizeCellBy(index, translation);
      if ended {
        FixOverlaps();
      }
    }

    /** `rbScrollViewCellDidResize`: select on begin; in every phase grow the
        cell by the drag and report it; on end, fix overlaps. */
    method CellDidResize(cell: GridCell, state: PanState, translation: real, withinContent: bool)
      requires Valid() && IsLive(cells, cell)
      modifies this
      ensures Valid()
      ensures var base := if state == Began then SelectedBy(old(cells), cell.id) else old(cells);
        var baseEvents := old(events) + if state == Began then SelectCalls(old(cells), cell.id) else [];
        var found := IndexOfId(base, cell.id);
        if !withinContent || found.None? then cells == base && events == baseEvents
        else
          var index := found.value;
          var grown := ResizedBy(base, index, old(DurationOf(translation)));
          var grownEvents := baseEvents + [Updated(grown[index], index)];
          if state == Ended then cells == FixedOverlaps(grown, AbsoluteEnd) && events == grownEvents + FixedOverlapsEvents(grown, AbsoluteEnd)
          else cells == grown && events == grownEvents
      ensures selectedCellIndex == if state == Began then SelectedIndexOf(old(cells), cell.id) else old(selectedCellIndex)
      ensures Ruler() == old(Ruler()) && Settings() == old(Settings())
    {
      ghost var d := DurationOf(translation);
      SelectOnBegin(cell, state);
      assert DurationOf(translation) == d;
      if withinContent {
        var found := IndexOfId(cells, cell.id);
        if found.Some? {
          ResizeAndSettle(found.value, translation, state == Ended);
        }
      }
    }

    /** `rbScrollViewCellDidTap`. */
    method CellDidTap(cell: GridCell)
      requires Valid() && IsLive(cells, cell)
      modifies this
      ensures Valid()
      ensures cell.isSelected ==>
        cells == Unselected(old(cells)) && selectedCellIndex == None && events == old(events) + [UnselectedAll]
      ensures !cell.isSelected ==>
        cells == SelectedBy(old(cells), cell.id) && selectedCellIndex == SelectedIndexOf(old(cells), cell.id) &&
        events == old(events) + SelectCalls(old(cells), cell.id)
      ensures Ruler() == old(Ruler()) && Settings() == old(Settings())
    {
      if cell.isSelected {
        UnselectCells();
      } else {
        SelectCell(cell);
      }
    }

    /** `rbScrollViewCellDidDelete`: remove the cell (clearing the selection
        first if it was selected) and report it. */
    method CellDidDelete(cell: GridCell)
      requires Valid() && IsLive(cells, cell)
      modifies this
      ensures Valid()
      ensures var found := IndexOfId(old(cells), cell.id);
        if found.None? then
          cells == old(cells) && events == old(events) && selectedCellIndex == old(selectedCellIndex)
        else
          var index := found.value;
          var before := if cell.isSelected then Unselected(old(cells)) else old(cells);
          cells == before[..index] + before[index + 1..] &&
          events == old(events) + (if cell.isSelected then [UnselectedAll] else []) + [Deleted(before[index], index)] &&
          selectedCellIndex == (if cell.isSelected then None else old(selectedCellIndex))
      ensures Ruler() == old(Ruler()) && Settings() == old(Settings())
    {
      var found := IndexOfId(cells, cell.id);
      if found.Some? {
        var index := found.value;
        if cell.isSelected {
          UnselectCells();
        }
        var removed := cells[index];
        RemovedDistinct(cells, index);
        cells := cells[..index] + cells[index + 1..];
        events := events + [Deleted(removed, index)];
      }
    }

    /** `playheadView(_:didPan:)` for either head: move it by the drag, never
        before zero, and report the end of the drag. */
    method HeadDidPan(head: Head, state: PanState, translation: real, maxXWithinContent: bool)
      requires Valid()
      modifies this
      ensures Valid()
      ensures var position := if head == Playhead then old(playheadPosition) else old(rangeheadPosition);
        var moves := maxXWithinContent && position >= 0.0;
        var newPosition := if moves then ClampedPosition(position + old(DurationOf(translation))) else position;
        (head == Playhead ==> playheadPosition == newPosition && rangeheadPosition == old(rangeheadPosition)) &&
        (head == Rangehead ==> rangeheadPosition == newPosition && playheadPosition == old(playheadPosition)) &&
        events == old(events) +
          if moves && state == Ended then (if head == Playhead then [PlayheadUpdated] else [RangeheadUpdated])
          else []
      ensures cells == old(cells) && selectedCellIndex == old(selectedCellIndex) && Ruler() == old(Ruler())
      ensures Zoom() == old(Zoom()) && zoomSpeed == old(zoomSpeed) && timeSignatureBeatCount == old(timeSignatureBeatCount)
      ensures minZoomLevel == old(minZoomLevel) && maxZoomLevel == old(maxZoomLevel)
    {
      var position := if head == Playhead then playheadPosition else rangeheadPosition;
      if !maxXWithinContent || position < 0.0 {
        return;
      }
      position := ClampedPosition(position + DurationOf(translation));
      if head == Playhead {
        playheadPosition := position;
      } else {
        rangeheadPosition := position;
      }
      if state == Ended {
        if head == Playhead {
          events := events + [PlayheadUpdated];
        } else {
          events := events + [RangeheadUpdated];
        }
      }
    }
  }
}
