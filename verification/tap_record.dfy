/** The tap-record pad (`RBTapRecordView`): the clock starts at the first
    touch; each display-link frame turns the time since then into a
    position, and while a finger is down the distance from the touch's start
    position is reported as the recording's duration. Reports to the
    delegate are appended to `events`. */
module TapRecord {

  datatype TapEvent =
    | DidStartRecording(position: real)
    | DidUpdateRecording(duration: real)
    | DidEndRecording(duration: real)
    | DidPressDone
    | DidPressCancel

  /** The position reported `elapsed` seconds after the first touch: the
      elapsed time divided by `bpm / 60`. */
  function PositionAt(elapsed: real, bpm: real): (p: real)
    requires bpm > 0.0
    ensures p * (bpm / 60.0) == elapsed
    ensures elapsed >= 0.0 <==> p >= 0.0
  {
    elapsed / (bpm / 60.0)
  }

  /** The elapsed time at which a position is reported. */
  function ElapsedAt(position: real, bpm: real): (e: real)
    requires bpm > 0.0
    ensures position >= 0.0 <==> e >= 0.0
  {
    position * (bpm / 60.0)
  }

  /** Positions and elapsed times correspond one to one. */
  lemma PositionElapsedRoundTrip(elapsed: real, position: real, bpm: real)
    requires bpm > 0.0
    ensures ElapsedAt(PositionAt(elapsed, bpm), bpm) == elapsed
    ensures PositionAt(ElapsedAt(position, bpm), bpm) == position
  {
  }

  /** Later frames report later positions, and the distance between two
      reported positions depends only on the time between the frames, not
      on when the clock started. */
  lemma PositionAtMonotoneAndShiftFree(start: real, t1: real, t2: real, bpm: real)
    requires bpm > 0.0
    ensures t1 <= t2 ==> PositionAt(t1 - start, bpm) <= PositionAt(t2 - start, bpm)
    ensures PositionAt(t2 - start, bpm) - PositionAt(t1 - start, bpm) == PositionAt(t2 - t1, bpm)
  {
    var k := bpm / 60.0;
    assert (t2 - start) / k - (t1 - start) / k == (t2 - t1) / k;
    if t1 <= t2 {
      assert PositionAt(t2 - t1, bpm) >= 0.0;
    }
  }

  /** With the formula as written, a tempo `factor` times faster reports a
      position `factor` times smaller for the same elapsed time. */
  lemma PositionAtTempoScaling(elapsed: real, bpm: real, factor: real)
    requires bpm > 0.0 && factor > 0.0
    ensures PositionAt(elapsed, factor * bpm) * factor == PositionAt(elapsed, bpm)
  {
    var k := bpm / 60.0;
    assert factor * bpm / 60.0 == factor * k;
    assert elapsed / (factor * k) * factor == elapsed / k;
  }

  class TapRecordView {
    var bpm: real
    var currentPosition: real
    var currentDuration: real
    var recordingStartPosition: real
    var startTimestamp: real
    var hasStarted: bool
    var isTouching: bool
    /** The display link's timestamp of its latest frame (zero before the
        first one). */
    var linkTimestamp: real
    /** Whether the display link still fires. */
    var linkRunning: bool
    var events: seq<TapEvent>

    /** The recorded state agrees with the clock: nothing before the first
        touch, then the current position is the one of the latest frame and
        the touch's start position never lies ahead of it. */
    ghost predicate Valid()
      reads this
    {
      bpm > 0.0 &&
      (isTouching ==> hasStarted) &&
      (!hasStarted ==>
        currentPosition == 0.0 && currentDuration == 0.0 &&
        recordingStartPosition == 0.0 && startTimestamp == 0.0) &&
      (hasStarted ==>
        startTimestamp <= linkTimestamp &&
        currentPosition == PositionAt(linkTimestamp - startTimestamp, bpm)) &&
      0.0 <= recordingStartPosition <= currentPosition &&
      0.0 <= currentDuration
    }

    /** A new pad at the given tempo, its display link added to the run loop. */
    constructor (bpm: real)
      requires bpm > 0.0
      ensures Valid() && this.bpm == bpm
      ensures !hasStarted && !isTouching && linkRunning && linkTimestamp == 0.0
      ensures events == []
    {
      this.bpm := bpm;
      currentPosition := 0.0;
      currentDuration := 0.0;
      recordingStartPosition := 0.0;
      startTimestamp := 0.0;
      hasStarted := false;
      isTouching := false;
      linkTimestamp := 0.0;
      linkRunning := true;
      events := [];
    }

    /** `update()`, run by a display-link frame at `timestamp`: nothing until
        the first touch; then the position follows the clock and, while a
        finger is down, the duration is the distance from the touch's start
        and is reported. */
    method Frame(timestamp: real)
      requires Valid() && linkRunning && timestamp >= linkTimestamp
      modifies this
      ensures Valid() && linkTimestamp == timestamp
      ensures !hasStarted ==> currentPosition == old(currentPosition) && events == old(events)
      ensures hasStarted ==> currentPosition == PositionAt(timestamp - startTimestamp, bpm)
      ensures isTouching ==>
        currentDuration == currentPosition - recordingStartPosition &&
        events == old(events) + [DidUpdateRecording(currentDuration)]
      ensures !isTouching ==> currentDuration == old(currentDuration) && events == old(events)
      ensures currentPosition >= old(currentPosition)
      ensures bpm == old(bpm) && startTimestamp == old(startTimestamp) && recordingStartPosition == old(recordingStartPosition)
      ensures hasStarted == old(hasStarted) && isTouching == old(isTouching) && linkRunning == old(linkRunning)
    {
      PositionAtMonotoneAndShiftFree(startTimestamp, linkTimestamp, timestamp, bpm);
      linkTimestamp := timestamp;
      if !hasStarted {
        return;
      }
      currentPosition := PositionAt(linkTimestamp - startTimestamp, bpm);
      if isTouching {
        currentDuration := currentPosition - recordingStartPosition;
        events := events + [DidUpdateRecording(currentDuration)];
      }
    }

    /** `doneButtonPressed`: stop the display link and report. */
    method DonePressed()
      requires Valid()
      modifies this
      ensures Valid() && !linkRunning && events == old(events) + [DidPressDone]
      ensures currentPosition == old(currentPosition) && currentDuration == old(currentDuration)
      ensures hasStarted == old(hasStarted) && isTouching == old(isTouching)
      ensures recordingStartPosition == old(recordingStartPosition)
      ensures startTimestamp == old(startTimestamp) && linkTimestamp == old(linkTimestamp) && bpm == old(bpm)
    {
      linkRunning := false;
      events := events + [DidPressDone];
    }

    /** `cancelButtonPressed`: stop the display link and report. */
    method CancelPressed()
      requires Valid()
      modifies this
      ensures Valid() && !linkRunning && events == old(events) + [DidPressCancel]
      ensures currentPosition == old(currentPosition) && currentDuration == old(currentDuration)
      ensures hasStarted == old(hasStarted) && isTouching == old(isTouching)
      ensures recordingStartPosition == old(recordingStartPosition)
      ensures startTimestamp == old(startTimestamp) && linkTimestamp == old(linkTimestamp) && bpm == old(bpm)
    {
      linkRunning := false;
      events := events + [DidPressCancel];
    }

    /** `touchesBegan`: the first touch starts the clock at the link's latest
        frame; every touch records from the current position and reports it. */
    method TouchesBegan()
      requires Valid()
      modifies this
      ensures Valid() && hasStarted && isTouching
      ensures old(hasStarted) ==> startTimestamp == old(startTimestamp)
      ensures !old(hasStarted) ==> startTimestamp == linkTimestamp && currentPosition == 0.0
      ensures recordingStartPosition == currentPosition == old(currentPosition)
      ensures events == old(events) + [DidStartRecording(currentPosition)]
      ensures currentDuration == old(currentDuration) && linkTimestamp == old(linkTimestamp)
      ensures bpm == old(bpm) && linkRunning == old(linkRunning)
    {
      if !hasStarted {
        hasStarted := true;
        startTimestamp := linkTimestamp;
      }
      isTouching := true;
      recordingStartPosition := currentPosition;
      events := events + [DidStartRecording(currentPosition)];
    }

    /** `touchesEnded`: the finger is up; the latest duration is reported. */
    method TouchesEnded()
      requires Valid()
      modifies this
      ensures Valid() && !isTouching
      ensures events == old(events) + [DidEndRecording(currentDuration)]
      ensures currentPosition == old(currentPosition) && currentDuration == old(currentDuration)
      ensures recordingStartPosition == old(recordingStartPosition) && hasStarted == old(hasStarted)
      ensures startTimestamp == old(startTimestamp) && linkTimestamp == old(linkTimestamp)
      ensures bpm == old(bpm) && linkRunning == old(linkRunning)
    {
      isTouching := false;
      events := events + [DidEndRecording(currentDuration)];
    }
  }

  /** Two taps, each held over one frame: the first starts at zero; the
      second starts where the frame before it left the clock, and each
      reports the time it was held as its duration. */
  method TwoTapsScenario(bpm: real, t0: real, t1: real, t2: real, t3: real)
    returns (events: seq<TapEvent>)
    requires bpm > 0.0 && 0.0 <= t0 <= t1 <= t2 <= t3
    ensures events == [
      DidStartRecording(0.0),
      DidUpdateRecording(PositionAt(t1 - t0, bpm)),
      DidEndRecording(PositionAt(t1 - t0, bpm)),
      DidStartRecording(PositionAt(t2 - t0, bpm)),
      DidUpdateRecording(PositionAt(t3 - t2, bpm)),
      DidEndRecording(PositionAt(t3 - t2, bpm))]
  {
    var pad := new TapRecordView(bpm);
    pad.Frame(t0);
    pad.TouchesBegan();
    pad.Frame(t1);
    pad.TouchesEnded();
    pad.Frame(t2);
    pad.TouchesBegan();
    pad.Frame(t3);
    PositionAtMonotoneAndShiftFree(t0, t2, t3, bpm);
    pad.TouchesEnded();
    events := pad.events;
  }
}
