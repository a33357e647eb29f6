/** Whole calibrations, on any input, and when one of them can be completed. */
module CalibrationRuns {
  import opened CalibrationSpec
  import opened RelayTypes

  /** What reaches a running calibration: the positions of the axes, or the user's confirmation. */
  datatype Input = Sample(axes: seq<real>, now: Time) | Confirm

  /** The gamepad has `count` axes throughout. */
  predicate Fits(input: Input, count: nat) {
    input.Sample? ==> |input.axes| == count
  }

  predicate AllFit(inputs: seq<Input>, count: nat) {
    forall k | 0 <= k < |inputs| :: Fits(inputs[k], count)
  }

  /** The clock does not run backwards, and the last sample is not later than `end`. */
  predicate Ascending(inputs: seq<Input>, end: Time) {
    && (forall k | 0 <= k < |inputs| && inputs[k].Sample? :: inputs[k].now <= end)
    && (forall j, k | 0 <= j < k < |inputs| && inputs[j].Sample? && inputs[k].Sample? :: inputs[j].now <= inputs[k].now)
  }

  /** One input; a confirmation counts only while a dialog is shown. */
  function Take(c: Calibration, input: Input): Calibration
    requires CalibrationOk(c) && Fits(input, c.count)
  {
    match input
    case Sample(axes, now) => Updated(c, axes, now)
    case Confirm => if c.waiting then Resumed(c) else c
  }

  lemma TakingKeepsOk(c: Calibration, input: Input)
    requires CalibrationOk(c) && Fits(input, c.count)
    ensures var c' := Take(c, input);
            CalibrationOk(c') && c'.count == c.count && c'.hasDialog == c.hasDialog && c.visited <= c'.visited
  {
    match input
    case Sample(axes, now) => UpdatingKeepsOk(c, axes, now);
    case Confirm => if c.waiting { ResumingKeepsOk(c); }
  }

  lemma ResumingKeepsOk(c: Calibration)
    requires CalibrationOk(c) && c.waiting
    ensures CalibrationOk(Resumed(c))
    ensures Resumed(c).visited == c.visited + [STAGES[|c.visited|]]
  {
    hide AxisOk, SpanIsWide;
    assert STAGES[..|c.visited|] == c.visited;
  }

  function After(c: Calibration, inputs: seq<Input>): (c': Calibration)
    requires CalibrationOk(c) && AllFit(inputs, c.count)
    ensures CalibrationOk(c') && c'.count == c.count && c'.hasDialog == c.hasDialog && c.visited <= c'.visited
    decreases |inputs|
  {
    if inputs == [] then c
    else
      var n := |inputs| - 1;
      var before := After(c, inputs[..n]);
      TakingKeepsOk(before, inputs[n]);
      Take(before, inputs[n])
  }

  /** A calibration that has just begun */
  function Begun(dialog: bool, count: nat): (c: Calibration)
    ensures CalibrationOk(c) && c.count == count && c.hasDialog == dialog && c.visited == [Steering]
  {
    Started(New(dialog, count))
  }

  predicate CanComplete(dialog: bool, count: nat, inputs: seq<Input>) {
    AllFit(inputs, count) && After(Begun(dialog, count), inputs).state == Complete
  }

  // ---------------------------------------------------------------- what every calibration keeps

  lemma WideMeansAxis(d: Axis, count: nat)
    requires AxisOk(d, count) && SpanIsWide(d)
    ensures d.axis.Some? && d.axis.value < count
  {
  }

  lemma NoAxisToFind(d: Axis, count: nat)
    requires AxisOk(d, count)
    ensures count == 0 ==> d.axis == None
  {
  }

  /** A third stage needs one axis, completion two, because the throttle is not on the steering axis. */
  lemma AxesAreNeeded(c: Calibration)
    requires CalibrationOk(c)
    ensures Finished(c) >= 1 ==> c.count >= 1
    ensures Finished(c) >= 3 ==> c.count >= 2
  {
    hide AxisOk, SpanIsWide;
    if Finished(c) >= 1 {
      WideMeansAxis(c.steering, c.count);
    }
    if Finished(c) >= 3 {
      WideMeansAxis(c.throttle, c.count);
    }
  }

  /** A complete calibration has gone through all stages and its results are usable. */
  lemma CompleteIsUsable(c: Calibration)
    requires CalibrationOk(c) && c.state == Complete
    ensures c.hasDialog && c.count >= 2 && c.visited == STAGES
    ensures SpanIsWide(c.steering) && SpanIsWide(c.throttle) && SpanIsWide(c.brake)
    ensures c.throttle.axis != c.steering.axis && c.brake.axis != c.steering.axis
    ensures |c.steering.idleSamples| == IDLE_SAMPLE_COUNT
  {
    hide AxisOk, SpanIsWide;
    AxesAreNeeded(c);
    WideMeansAxis(c.throttle, c.count);
    WideMeansAxis(c.brake, c.count);
  }

  lemma InOrder(c: Calibration)
    requires CalibrationOk(c)
    ensures c.visited <= STAGES
  {
  }

  /** Without a dialog or without axes the first stage never ends; with one axis the third never ends. */
  lemma WhereItStays(c: Calibration)
    requires CalibrationOk(c) && c.visited != []
    ensures !c.hasDialog || c.count == 0 ==> c.state == Active && c.stage == Some(Steering) && c.visited == [Steering]
    ensures c.count == 1 ==> |c.visited| <= 3 && (|c.visited| == 3 ==> c.state == Active && c.stage == Some(Throttle))
  {
    hide AxisOk, SpanIsWide, Filled;
    AxesAreNeeded(c);
    if !c.hasDialog || c.count == 0 {
      assert |c.visited| == 1 && c.visited[0] == STAGES[0];
    }
  }

  // ---------------------------------------------------------------- building a complete calibration

  /** Some inputs lead from `c` to `reached`, the last sample not later than `end`. */
  ghost predicate CanReach(c: Calibration, reached: Calibration, end: Time)
    requires CalibrationOk(c)
  {
    exists inputs: seq<Input> :: AllFit(inputs, c.count) && Ascending(inputs, end) && After(c, inputs) == reached
  }

  lemma ReachMore(c: Calibration, before: Calibration, end: Time, input: Input, end': Time)
    requires CalibrationOk(c) && CanReach(c, before, end)
    requires Fits(input, c.count) && end' >= end && (input.Sample? ==> end <= input.now <= end')
    ensures CalibrationOk(before) && before.count == c.count
    ensures CanReach(c, Take(before, input), end')
  {
    hide Take, CalibrationOk;
    var inputs: seq<Input> :| AllFit(inputs, c.count) && Ascending(inputs, end) && After(c, inputs) == before;
    var more := inputs + [input];
    assert more[..|inputs|] == inputs;
    assert AllFit(more, c.count) && Ascending(more, end') && After(c, more) == Take(before, input);
  }

  /** One axis is moved, all others rest. */
  function Position(count: nat, axis: nat, x: real): (axes: seq<real>)
    ensures |axes| == count
  {
    seq(count, j => if j == axis then x else 0.0)
  }

  /** Six samples that calibrate one axis: rest, push, wait until it is found, release, wait */
  function SweepSample(count: nat, axis: nat, start: Time, k: nat): (input: Input)
    ensures input.Sample? && |input.axes| == count
  {
    if k == 0 then Sample(Position(count, axis, 0.0), start)
    else if k <= 3 then Sample(Position(count, axis, 1.0), start + k as real)
    else Sample(Position(count, axis, 0.0), start + 2.0 * k as real - 4.0)
  }

  /** The axis after the first `k` of them */
  function Swept(count: nat, axis: nat, start: Time, k: nat): Axis {
    if k == 0 then UNKNOWN
    else
      var found := UNKNOWN.(
        baseline := Some(Position(count, axis, 0.0)),
        detectionStart := if k == 1 then None else Some(start + 1.0),
        axis := if k <= 2 then None else Some(axis));
      if k <= 3 then found
      else found.(
        maxValues := if k == 4 then [1.0] else if k == 5 then [1.0, 0.0] else [1.0, 0.0, 0.0],
        maxLast := Some(1.0), maxStableSince := Some(start + 3.0),
        minLast := if k == 4 then Some(1.0) else Some(0.0),
        minStableSince := if k == 4 then Some(start + 3.0) else Some(start + 4.0))
  }

  lemma Extremes()
    ensures Max([1.0]) == 1.0 == Min([1.0])
    ensures Max([1.0, 0.0]) == 1.0 && Min([1.0, 0.0]) == 0.0
    ensures Max([1.0, 0.0, 0.0]) == 1.0 && Min([1.0, 0.0, 0.0]) == 0.0
  {
    hide Max, Min;
    assert 1.0 in [1.0, 0.0] && 0.0 in [1.0, 0.0] && 1.0 in [1.0, 0.0, 0.0] && 0.0 in [1.0, 0.0, 0.0];
  }

  lemma SweptIsOk(count: nat, axis: nat, start: Time, k: nat)
    requires axis < count && k <= 6
    ensures AxisOk(Swept(count, axis, start, k), count)
    ensures k == 6 ==> SpanIsWide(Swept(count, axis, start, k))
  {
    hide Max, Min;
    Extremes();
  }

  lemma PushedIsLargest(count: nat, axis: nat, excluded: set<nat>)
    requires axis < count && axis !in excluded
    ensures var diffs := Movement(Position(count, axis, 1.0), Position(count, axis, 0.0), excluded);
            Largest(diffs) == axis && diffs[axis] == 1.0
  {
    var diffs := Movement(Position(count, axis, 1.0), Position(count, axis, 0.0), excluded);
    LargestIsUnique(diffs, Largest(diffs), axis);
  }

  lemma SweepRecords(count: nat, axis: nat, start: Time, k: nat)
    requires axis < count && 3 <= k < 6
    requires AxisOk(Swept(count, axis, start, k), count)
    ensures var input := SweepSample(count, axis, start, k);
            Record(Swept(count, axis, start, k), input.axes, input.now) == (Swept(count, axis, start, k + 1), k == 5)
  {
    hide Max, Min, AxisOk, Position;
    Extremes();
    assert [] + [1.0] == [1.0] && [1.0] + [0.0] == [1.0, 0.0] && [1.0, 0.0] + [0.0] == [1.0, 0.0, 0.0];
    assert SweepSample(count, axis, start, k).axes[axis] == if k == 3 then 1.0 else 0.0 by { PositionAt(count, axis); }
  }

  lemma PositionAt(count: nat, axis: nat)
    requires axis < count
    ensures forall x: real :: Position(count, axis, x)[axis] == x
  {
  }

  lemma SweepStep(count: nat, axis: nat, start: Time, excluded: set<nat>, k: nat)
    requires axis < count && axis !in excluded && k < 6
    requires AxisOk(Swept(count, axis, start, k), count)
    ensures var input := SweepSample(count, axis, start, k);
            DetectAndRecord(Swept(count, axis, start, k), input.axes, excluded, input.now)
            == (Swept(count, axis, start, k + 1), k == 5)
  {
    if k < 3 {
      hide Max, Min, Largest, Movement, AxisOk, Record;
      PushedIsLargest(count, axis, excluded);
    } else {
      hide AxisOk, Record, SweepSample;
      SweepRecords(count, axis, start, k);
    }
  }

  /** The calibration with `d` as the data of the axis under calibration */
  function With(c: Calibration, d: Axis): Calibration {
    if c.stage == Some(Steering) then c.(steering := d)
    else if c.stage == Some(Throttle) then c.(throttle := d)
    else c.(brake := d)
  }

  predicate Sweeping(c: Calibration) {
    c.state == Active && c.stage.Some? && c.stage.value != SteeringCenter
  }

  function ExcludedNow(c: Calibration): set<nat> {
    if c.stage == Some(Steering) then {} else Excluded(c)
  }

  /** The end of a stage that sweeps an axis */
  function Advanced(c: Calibration): Calibration
    requires Sweeping(c)
  {
    match c.stage.value
    case Steering => Queued(c, SteeringCenter)
    case Throttle => Queued(c, Brake)
    case _ => c.(state := Complete, stage := None)
  }

  lemma StageStep(c: Calibration, d: Axis, axes: seq<real>, now: Time)
    requires Sweeping(c) && |axes| == c.count && AxisOk(d, c.count) && CalibrationOk(With(c, d))
    ensures var (d', done) := DetectAndRecord(d, axes, ExcludedNow(c), now);
            Updated(With(c, d), axes, now) == if done then Advanced(With(c, d')) else With(c, d')
  {
    hide DetectAndRecord, RecordIdle, CalibrationOk, AxisOk;
  }

  function SweepEnd(count: nat, axis: nat, start: Time, k: nat): Time {
    if k == 0 then start else SweepSample(count, axis, start, k - 1).now
  }

  /** The end of a stage that leaves `d` as the data of its axis */
  function EndedWith(c: Calibration, d: Axis): Calibration
    requires Sweeping(c)
  {
    Advanced(With(c, d))
  }

  /** Inputs lead to the calibration with `d` as the data of its axis. */
  ghost predicate Reaches(first: Calibration, c: Calibration, d: Axis, end: Time)
    requires CalibrationOk(first)
  {
    CanReach(first, With(c, d), end)
  }

  /** Sweeping an axis that is not excluded ends the stage. */
  lemma {:induction false} SweepReaches(first: Calibration, c: Calibration, axis: nat, start: Time, k: nat)
    requires CalibrationOk(first) && Sweeping(c) && axis < c.count == first.count && axis !in ExcludedNow(c) && k < 6
    requires Reaches(first, c, Swept(c.count, axis, start, k), SweepEnd(c.count, axis, start, k))
    ensures CanReach(first, EndedWith(c, Swept(c.count, axis, start, 6)), start + 6.0)
    decreases 6 - k
  {
    hide CalibrationOk, CanReach, Swept, Advanced, With, ExcludedNow, DetectAndRecord, Updated, AxisOk;
    var d, input := Swept(c.count, axis, start, k), SweepSample(c.count, axis, start, k);
    ReachMore(first, With(c, d), SweepEnd(c.count, axis, start, k), input, input.now);
    SweptIsOk(c.count, axis, start, k);
    SweepStep(c.count, axis, start, ExcludedNow(c), k);
    WithKeeps(c, d);
    StageStep(c, d, input.axes, input.now);
    if k < 5 {
      SweepReaches(first, c, axis, start, k + 1);
    }
  }

  lemma WithKeeps(c: Calibration, d: Axis)
    ensures With(c, d).count == c.count && (Sweeping(c) ==> Sweeping(With(c, d)))
  {
  }

  // ---------------------------------------------------------------- the center

  /** Twelve samples at rest that record the center */
  function IdleSample(count: nat, start: Time, k: nat): (input: Input)
    ensures input.Sample? && |input.axes| == count
  {
    Sample(Position(count, 0, 0.0), start + k as real + if k < 2 then 0.0 else 1.0)
  }

  function Zeros(k: nat): (values: seq<real>)
    ensures |values| == k
  {
    seq(k, _ => 0.0)
  }

  function Idled(d: Axis, start: Time, k: nat): Axis {
    d.(
      idleLast := if k == 0 then None else Some(0.0),
      idleStableSince := if k < 2 then None else Some(start + 1.0),
      idleSamples := if k < 2 then [] else Zeros(k - 2))
  }

  lemma IdleStep(d: Axis, count: nat, start: Time, k: nat)
    requires AxisOk(Idled(d, start, k), count) && d.axis.Some? && k < 12
    ensures var input := IdleSample(count, start, k);
            RecordIdle(Idled(d, start, k), input.axes, input.now) == (Idled(d, start, k + 1), k == 11)
  {
    assert k >= 2 ==> Zeros(k - 2) + [0.0] == Zeros(k - 1);
  }

  function IdleEnd(count: nat, start: Time, k: nat): Time {
    if k == 0 then start else IdleSample(count, start, k - 1).now
  }

  predicate Centering(c: Calibration) {
    c.state == Active && c.stage == Some(SteeringCenter)
  }

  lemma CenterStep(c: Calibration, d: Axis, axes: seq<real>, now: Time)
    requires Centering(c) && |axes| == c.count && AxisOk(d, c.count) && d.axis.Some? && CalibrationOk(c.(steering := d))
    ensures var (d', done) := RecordIdle(d, axes, now);
            Updated(c.(steering := d), axes, now)
            == if done then Queued(c.(steering := d'), Throttle) else c.(steering := d')
  {
    hide DetectAndRecord, RecordIdle, CalibrationOk, AxisOk;
  }

  lemma IdledIsOk(d: Axis, count: nat, start: Time, k: nat)
    requires AxisOk(d, count)
    ensures AxisOk(Idled(d, start, k), count)
  {
  }

  /** Keeping still ends the second stage. */
  lemma {:induction false} IdlingReaches(first: Calibration, c: Calibration, d: Axis, start: Time, k: nat)
    requires CalibrationOk(first) && Centering(c) && c.count == first.count && AxisOk(d, c.count) && d.axis.Some?
               && k < 12
    requires CanReach(first, c.(steering := Idled(d, start, k)), IdleEnd(c.count, start, k))
    ensures CanReach(first, Queued(c.(steering := Idled(d, start, 12)), Throttle), start + 12.0)
    decreases 12 - k
  {
    hide CalibrationOk, CanReach, Queued, RecordIdle, Updated, AxisOk;
    var e, input := Idled(d, start, k), IdleSample(c.count, start, k);
    ReachMore(first, c.(steering := e), IdleEnd(c.count, start, k), input, input.now);
    IdledIsOk(d, c.count, start, k);
    IdleStep(d, c.count, start, k);
    CenterStep(c, e, input.axes, input.now);
    if k < 11 {
      IdlingReaches(first, c, d, start, k + 1);
    }
  }

  // ---------------------------------------------------------------- all four stages

  /** A sweep from the beginning of a stage to the moment its successor is confirmed */
  lemma StageReaches(first: Calibration, c: Calibration, axis: nat, start: Time)
    requires CalibrationOk(first) && CanReach(first, c, start)
    requires Sweeping(c) && axis < c.count == first.count && axis !in ExcludedNow(c)
    requires With(c, UNKNOWN) == c
    ensures CanReach(first, EndedWith(c, Swept(c.count, axis, start, 6)), start + 6.0)
  {
    hide CalibrationOk, CanReach, With, Advanced, ExcludedNow;
    SweepReaches(first, c, axis, start, 0);
  }

  lemma ConfirmReaches(first: Calibration, c: Calibration, end: Time)
    requires CalibrationOk(first) && CanReach(first, c, end) && c.waiting && c.pending.Some?
    ensures CanReach(first, Resumed(c), end)
  {
    hide CalibrationOk, CanReach, Resumed;
    ReachMore(first, c, end, Confirm, end);
  }

  /** After the first two stages, with the steering on axis 0 */
  function Halfway(count: nat): Calibration {
    Calibration(true, count, Idled(Swept(count, 0, 0.0, 6), 6.0, 12), UNKNOWN, UNKNOWN,
                Some(Throttle), Active, None, false, [Steering, SteeringCenter, Throttle])
  }

  /** After the third stage, with the throttle on axis 1 */
  function Braking(count: nat): Calibration {
    Halfway(count).(throttle := Swept(count, 1, 18.0, 6), stage := Some(Brake), visited := STAGES)
  }

  lemma NothingReaches(c: Calibration)
    requires CalibrationOk(c)
    ensures CanReach(c, c, 0.0)
  {
    assert AllFit([], c.count) && Ascending([], 0.0) && After(c, []) == c;
  }

  lemma HalfwayIsReached(count: nat)
    requires count >= 1
    ensures CanReach(Begun(true, count), Halfway(count), 18.0)
  {
    hide CalibrationOk, CanReach, Swept, Idled, AxisOk, SpanIsWide;
    var first, swept := Begun(true, count), Swept(count, 0, 0.0, 6);
    NothingReaches(first);
    StageReaches(first, first, 0, 0.0);
    var c := first.(steering := swept);
    ConfirmReaches(first, Queued(c, SteeringCenter), 6.0);
    SweptIsOk(count, 0, 0.0, 6);
    WideMeansAxis(swept, count);
    c := Resumed(Queued(c, SteeringCenter));
    NotIdledYet(count);
    IdlingReaches(first, c, swept, 6.0, 0);
    ConfirmReaches(first, Queued(c.(steering := Idled(swept, 6.0, 12)), Throttle), 18.0);
    assert [Steering] + [SteeringCenter] + [Throttle] == [Steering, SteeringCenter, Throttle];
  }

  lemma NotIdledYet(count: nat)
    ensures Idled(Swept(count, 0, 0.0, 6), 6.0, 0) == Swept(count, 0, 0.0, 6)
  {
  }

  lemma HalfwayAxis(count: nat)
    ensures Halfway(count).steering.axis == Some(0)
  {
  }

  lemma BrakingIsReached(count: nat)
    requires count >= 2
    ensures CanReach(Begun(true, count), Braking(count), 24.0)
  {
    hide CalibrationOk, CanReach, Swept, Idled, AxisOk, SpanIsWide;
    var first, c := Begun(true, count), Halfway(count);
    HalfwayIsReached(count);
    HalfwayAxis(count);
    StageReaches(first, c, 1, 18.0);
    ConfirmReaches(first, Queued(c.(throttle := Swept(count, 1, 18.0, 6)), Brake), 24.0);
    assert [Steering, SteeringCenter, Throttle] + [Brake] == STAGES;
  }

  lemma CompleteIsReached(count: nat)
    requires count >= 2
    ensures exists inputs: seq<Input> :: CanComplete(true, count, inputs) && Ascending(inputs, 30.0)
  {
    hide CalibrationOk, Swept, Idled, AxisOk, SpanIsWide;
    var first, c := Begun(true, count), Braking(count);
    BrakingIsReached(count);
    HalfwayAxis(count);
    StageReaches(first, c, 1, 24.0);
    var inputs: seq<Input> :| AllFit(inputs, count) && Ascending(inputs, 30.0)
                              && After(first, inputs) == Advanced(With(c, Swept(count, 1, 24.0, 6)));
    assert CanComplete(true, count, inputs);
  }

  /**
   * A calibration can be completed exactly when there is a dialog and the gamepad has two axes,
   * and then also with a clock that does not run backwards.
   */
  lemma CompletionIff(dialog: bool, count: nat)
    ensures (exists inputs: seq<Input> :: CanComplete(dialog, count, inputs)) <==> dialog && count >= 2
    ensures (exists inputs: seq<Input> :: CanComplete(dialog, count, inputs) && Ascending(inputs, 30.0))
            <==> dialog && count >= 2
  {
    hide CalibrationOk, Ascending;
    if inputs: seq<Input> :| CanComplete(dialog, count, inputs) {
      CompleteIsUsable(After(Begun(dialog, count), inputs));
    }
    if dialog && count >= 2 {
      CompleteIsReached(count);
    }
  }
}
