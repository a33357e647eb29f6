/**
 * Gamepad calibration as a function of its inputs: four stages, each confirmed in a dialog before
 * the next begins. Axis positions and times are real numbers. Calibrator.dfy does the same in
 * place; here is what any sequence of inputs leads to, and when a calibration can be completed.
 */
module CalibrationSpec {
  import opened RelayTypes

  const AXIS_MOVEMENT_THRESHOLD := 0.3
  const DETECTION_TIME := 0.5
  const STABLE_TIME := 1.5
  const IDLE_SAMPLE_COUNT := 10
  const STABLE_CHANGE := 0.01
  const IDLE_CHANGE := 0.05

  datatype Stage = Steering | SteeringCenter | Throttle | Brake
  datatype CalibratorState = Pause | Active | Complete

  /** The order in which a calibration goes through its stages */
  const STAGES := [Steering, SteeringCenter, Throttle, Brake]

  function Abs(x: real): (a: real)
    ensures a >= 0.0 && a in {x, -x}
  {
    if x < 0.0 then -x else x
  }

  function Max(values: seq<real>): (m: real)
    requires values != []
    ensures m in values && forall v | v in values :: v <= m
  {
    if |values| == 1 then values[0]
    else
      var rest := Max(values[1..]);
      assert forall v | v in values :: v == values[0] || v in values[1..];
      if values[0] >= rest then values[0] else rest
  }

  function Min(values: seq<real>): (m: real)
    requires values != []
    ensures m in values && forall v | v in values :: m <= v
  {
    if |values| == 1 then values[0]
    else
      var rest := Min(values[1..]);
      assert forall v | v in values :: v == values[0] || v in values[1..];
      if values[0] <= rest then values[0] else rest
  }

  lemma ExtremesGrow(values: seq<real>, x: real)
    requires values != []
    ensures Max(values) <= Max(values + [x]) && Min(values + [x]) <= Min(values)
  {
    hide Max, Min;
    assert Max(values) in values + [x] && Min(values) in values + [x];
  }

  /** How far each axis has moved from the baseline; excluded axes count as still. */
  function Movement(axes: seq<real>, baseline: seq<real>, excluded: set<nat>): (diffs: seq<real>)
    requires |axes| == |baseline|
    ensures |diffs| == |axes|
  {
    seq(|axes|, i requires 0 <= i < |axes| => if i in excluded then 0.0 else Abs(axes[i] - baseline[i]))
  }

  /** The first index of a largest value */
  predicate IsLargest(diffs: seq<real>, axis: nat) {
    && axis < |diffs|
    && (forall j | 0 <= j < |diffs| :: diffs[j] <= diffs[axis])
    && (forall j | 0 <= j < axis :: diffs[j] < diffs[axis])
  }

  function Largest(diffs: seq<real>): (axis: nat)
    requires diffs != []
    ensures IsLargest(diffs, axis)
  {
    if |diffs| == 1 then 0
    else
      var n := |diffs| - 1;
      var before := Largest(diffs[..n]);
      if diffs[n] > diffs[before] then n else before
  }

  lemma LargestIsUnique(diffs: seq<real>, a: nat, b: nat)
    requires IsLargest(diffs, a) && IsLargest(diffs, b)
    ensures a == b
  {
    assert diffs[a] <= diffs[b] <= diffs[a];
  }

  // ---------------------------------------------------------------- one axis

  datatype Axis = Axis(
    axis: Option<nat>,
    baseline: Option<seq<real>>,
    detectionStart: Option<Time>,
    maxValues: seq<real>,
    maxLast: Option<real>,
    maxStableSince: Option<Time>,
    minLast: Option<real>,
    minStableSince: Option<Time>,
    idleLast: Option<real>,
    idleStableSince: Option<Time>,
    idleSamples: seq<real>)

  const UNKNOWN := Axis(None, None, None, [], None, None, None, None, None, None, [])

  /** With `count` axes on the gamepad: what is set implies what it was computed from. */
  predicate AxisOk(d: Axis, count: nat) {
    && (d.baseline.Some? ==> |d.baseline.value| == count)
    && (d.axis.Some? ==> d.baseline.Some? && d.axis.value < count)
    && (d.detectionStart.Some? ==> d.baseline.Some? && count > 0)
    && (d.maxValues != [] ==> d.axis.Some? && d.maxStableSince.Some? && d.minStableSince.Some?)
    && (d.maxLast.Some? <==> d.maxValues != [])
    && (d.minLast.Some? <==> d.maxValues != [])
    && (d.idleSamples != [] ==> d.idleLast.Some?)
    && (d.maxValues != [] ==> d.maxLast.value <= Max(d.maxValues) <= d.maxLast.value + STABLE_CHANGE)
    && (d.maxValues != [] ==> d.minLast.value - STABLE_CHANGE <= Min(d.maxValues) <= d.minLast.value)
  }

  predicate SpanIsWide(d: Axis) {
    d.axis.Some? && d.maxValues != [] && Max(d.maxValues) - Min(d.maxValues) >= AXIS_MOVEMENT_THRESHOLD
  }

  /** The axis is not excluded, has moved far from the baseline, and no other has moved further. */
  predicate Moves(axis: nat, axes: seq<real>, baseline: seq<real>, excluded: set<nat>)
    requires |axes| == |baseline|
  {
    && axis < |axes| && axis !in excluded
    && Abs(axes[axis] - baseline[axis]) > AXIS_MOVEMENT_THRESHOLD
    && forall j | 0 <= j < |axes| && j !in excluded :: Abs(axes[j] - baseline[j]) <= Abs(axes[axis] - baseline[axis])
  }

  /** Looking for the axis that moves; without any axis the program raises and changes nothing. */
  function Detect(d: Axis, axes: seq<real>, excluded: set<nat>, now: Time): Axis
    requires AxisOk(d, |axes|) && d.axis == None
  {
    if d.baseline == None then d.(baseline := Some(axes))
    else if axes == [] then d
    else
      var diffs := Movement(axes, d.baseline.value, excluded);
      var largest := Largest(diffs);
      if diffs[largest] > AXIS_MOVEMENT_THRESHOLD then
        if d.detectionStart == None then d.(detectionStart := Some(now))
        else if now - d.detectionStart.value >= DETECTION_TIME then d.(axis := Some(largest))
        else d
      else d.(detectionStart := None)
  }

  /** Recording the extremes; the flag says that the range is known. */
  function Record(d: Axis, axes: seq<real>, now: Time): (Axis, bool)
    requires AxisOk(d, |axes|) && d.axis.Some?
  {
    var values := d.maxValues + [axes[d.axis.value]];
    var largest, smallest := Max(values), Min(values);
    var up := d.maxLast == None || largest > d.maxLast.value + STABLE_CHANGE;
    var down := d.minLast == None || smallest < d.minLast.value - STABLE_CHANGE;
    var d' := d.(
      maxValues := values,
      maxLast := if up then Some(largest) else d.maxLast,
      maxStableSince := if up then Some(now) else d.maxStableSince,
      minLast := if down then Some(smallest) else d.minLast,
      minStableSince := if down then Some(now) else d.minStableSince);
    (d', largest - smallest >= AXIS_MOVEMENT_THRESHOLD
         && now - d'.minStableSince.value >= STABLE_TIME && now - d'.maxStableSince.value >= STABLE_TIME)
  }

  /** Recording the center; the flag says that there are enough samples. */
  function RecordIdle(d: Axis, axes: seq<real>, now: Time): (Axis, bool)
    requires AxisOk(d, |axes|) && d.axis.Some?
  {
    var value := axes[d.axis.value];
    if d.idleLast == None then (d.(idleLast := Some(value)), false)
    else if Abs(value - d.idleLast.value) >= IDLE_CHANGE
        then (d.(idleLast := Some(value), idleStableSince := None), false)
    else if d.idleStableSince == None then (d.(idleLast := Some(value), idleStableSince := Some(now)), false)
    else if now - d.idleStableSince.value >= STABLE_TIME then
      var samples := d.idleSamples + [value];
      (d.(idleLast := Some(value), idleSamples := samples), |samples| >= IDLE_SAMPLE_COUNT)
    else (d.(idleLast := Some(value)), false)
  }

  /** `_detect_and_record_axis` */
  function DetectAndRecord(d: Axis, axes: seq<real>, excluded: set<nat>, now: Time): (Axis, bool)
    requires AxisOk(d, |axes|)
  {
    if d.axis == None then (Detect(d, axes, excluded, now), false) else Record(d, axes, now)
  }

  /** An axis is chosen only after half a second of movement, and then the one that has moved furthest. */
  lemma DetectFinds(d: Axis, axes: seq<real>, excluded: set<nat>, now: Time)
    requires AxisOk(d, |axes|) && d.axis == None
    ensures var d' := Detect(d, axes, excluded, now);
            && AxisOk(d', |axes|)
            && (d'.axis.Some? ==>
                  && d.baseline.Some? && d.detectionStart.Some? && now - d.detectionStart.value >= DETECTION_TIME
                  && Moves(d'.axis.value, axes, d.baseline.value, excluded))
            && (d'.detectionStart.Some? ==>
                  d.baseline.Some? && exists i | 0 <= i < |axes| :: Moves(i, axes, d.baseline.value, excluded))
            && d'.idleSamples == d.idleSamples && d'.maxValues == d.maxValues
  {
    if d.baseline.Some? && axes != [] {
      var diffs := Movement(axes, d.baseline.value, excluded);
      var largest := Largest(diffs);
      hide Largest;
      assert forall j | 0 <= j < |axes| && j !in excluded :: diffs[j] == Abs(axes[j] - d.baseline.value[j]);
      assert diffs[largest] > AXIS_MOVEMENT_THRESHOLD ==> Moves(largest, axes, d.baseline.value, excluded);
    }
  }

  /** Some axis that is not excluded is more than 0.3 away from the baseline. */
  predicate AnyMoved(axes: seq<real>, baseline: seq<real>, excluded: set<nat>)
    requires |axes| == |baseline|
  {
    exists i | 0 <= i < |axes| :: i !in excluded && !(-0.3 <= axes[i] - baseline[i] <= 0.3)
  }

  /**
   * The first sample is the baseline. After that, movement starts the clock, stillness stops it,
   * and movement half a second after the start, and nothing else, settles the axis.
   */
  lemma DetectExactly(d: Axis, axes: seq<real>, excluded: set<nat>, now: Time)
    requires AxisOk(d, |axes|) && d.axis == None
    ensures var d' := Detect(d, axes, excluded, now);
            && d' == d.(axis := d'.axis, baseline := d'.baseline, detectionStart := d'.detectionStart)
            && d'.baseline == (if d.baseline == None then Some(axes) else d.baseline)
            && if d.baseline == None || axes == [] then d'.axis == None && d'.detectionStart == d.detectionStart
               else if !AnyMoved(axes, d.baseline.value, excluded) then d'.axis == None && d'.detectionStart == None
               else
                 && d'.detectionStart == (if d.detectionStart == None then Some(now) else d.detectionStart)
                 && (d'.axis.Some? <==> d.detectionStart.Some? && now - d.detectionStart.value >= 0.5)
  {
    if d.baseline.Some? && axes != [] {
      var baseline := d.baseline.value;
      var diffs := Movement(axes, baseline, excluded);
      var largest := Largest(diffs);
      hide Largest;
      if diffs[largest] > AXIS_MOVEMENT_THRESHOLD {
        assert largest !in excluded && !(-0.3 <= axes[largest] - baseline[largest] <= 0.3);
        assert AnyMoved(axes, baseline, excluded);
      } else {
        forall i | 0 <= i < |axes| && i !in excluded ensures -0.3 <= axes[i] - baseline[i] <= 0.3 {
          assert diffs[i] == Abs(axes[i] - baseline[i]) <= 0.3;
        }
        assert !AnyMoved(axes, baseline, excluded);
      }
    }
  }

  /**
   * A sample is added to the recorded values. It becomes the new noted maximum, or minimum, at
   * this moment exactly when it lies more than 0.01 beyond the one noted so far; recording is
   * done when the range is at least 0.3 wide and both were noted at least 1.5 seconds ago.
   */
  lemma RecordExactly(d: Axis, axes: seq<real>, now: Time)
    requires AxisOk(d, |axes|) && d.axis.Some?
    ensures var (d', done) := Record(d, axes, now);
            var x, first := axes[d.axis.value], d.maxValues == [];
            && d' == d.(maxValues := d.maxValues + [x],
                        maxLast := d'.maxLast, maxStableSince := d'.maxStableSince,
                        minLast := d'.minLast, minStableSince := d'.minStableSince)
            && (if first || x > d.maxLast.value + 0.01 then d'.maxLast == Some(x) && d'.maxStableSince == Some(now)
                else d'.maxLast == d.maxLast && d'.maxStableSince == d.maxStableSince)
            && (if first || x < d.minLast.value - 0.01 then d'.minLast == Some(x) && d'.minStableSince == Some(now)
                else d'.minLast == d.minLast && d'.minStableSince == d.minStableSince)
            && (done <==>
                  && (exists v, w | v in d'.maxValues && w in d'.maxValues :: v - w >= 0.3)
                  && now - d'.maxStableSince.value >= 1.5 && now - d'.minStableSince.value >= 1.5)
  {
    hide Max, Min;
    var x := axes[d.axis.value];
    var values := d.maxValues + [x];
    if d.maxValues == [] {
      assert values == [x];
      ExtremesOfOne(x);
    } else {
      ExtremesOfMore(d.maxValues, x);
    }
    assert Max(values) in values && Min(values) in values;
  }

  lemma ExtremesOfOne(x: real)
    ensures Max([x]) == x == Min([x])
  {
  }

  lemma ExtremesOfMore(values: seq<real>, x: real)
    requires values != []
    ensures Max(values + [x]) == (if x > Max(values) then x else Max(values))
    ensures Min(values + [x]) == (if x < Min(values) then x else Min(values))
  {
    hide Max, Min;
    var more := values + [x];
    assert Max(values) in more && Min(values) in more && x in more;
    assert forall v | v in more :: v in values || v == x;
  }

  /**
   * A sample near the one before keeps the axis still, and any other sample does not; once it has
   * been still for 1.5 seconds, each near sample is taken, and the tenth ends the stage.
   */
  lemma RecordIdleExactly(d: Axis, axes: seq<real>, now: Time)
    requires AxisOk(d, |axes|) && d.axis.Some?
    ensures var (d', done) := RecordIdle(d, axes, now);
            var x := axes[d.axis.value];
            var near := d.idleLast.Some? && -0.05 < x - d.idleLast.value < 0.05;
            var taken := near && d.idleStableSince.Some? && now - d.idleStableSince.value >= 1.5;
            && d' == d.(idleLast := Some(x), idleStableSince := d'.idleStableSince, idleSamples := d'.idleSamples)
            && d'.idleStableSince == (if near && d.idleStableSince == None then Some(now)
                                      else if near || d.idleLast == None then d.idleStableSince else None)
            && d'.idleSamples == d.idleSamples + (if taken then [x] else [])
            && (done <==> taken && |d'.idleSamples| >= 10)
  {
    hide Max, Min;
  }

  lemma RecordKeepsOk(d: Axis, axes: seq<real>, now: Time)
    requires AxisOk(d, |axes|) && d.axis.Some?
    ensures var (d', done) := Record(d, axes, now);
            && AxisOk(d', |axes|) && d'.axis == d.axis && d'.idleSamples == d.idleSamples
            && (done <==>
                  && SpanIsWide(d')
                  && now - d'.minStableSince.value >= STABLE_TIME && now - d'.maxStableSince.value >= STABLE_TIME)
  {
    hide Max, Min;
    if d.maxValues != [] {
      ExtremesGrow(d.maxValues, axes[d.axis.value]);
    }
  }

  lemma RecordIdleKeepsOk(d: Axis, axes: seq<real>, now: Time)
    requires AxisOk(d, |axes|) && d.axis.Some?
    ensures var (d', done) := RecordIdle(d, axes, now);
            && AxisOk(d', |axes|) && d'.axis == d.axis && d'.maxValues == d.maxValues
            && |d.idleSamples| <= |d'.idleSamples| <= |d.idleSamples| + 1
            && (done ==> |d'.idleSamples| >= IDLE_SAMPLE_COUNT)
            && (|d'.idleSamples| >= IDLE_SAMPLE_COUNT > |d.idleSamples| ==> done)
  {
    hide Max, Min, Abs;
  }

  // ---------------------------------------------------------------- the calibration

  datatype Calibration = Calibration(
    hasDialog: bool,
    count: nat,
    steering: Axis,
    throttle: Axis,
    brake: Axis,
    stage: Option<Stage>,
    state: CalibratorState,
    pending: Option<Stage>,
    waiting: bool,
    visited: seq<Stage>)

  /** Where the calibration is: not started, in a stage, waiting for the next one, or complete. */
  predicate Placed(c: Calibration) {
    && c.visited <= STAGES
    && (|c.visited| > 1 ==> c.hasDialog)
    && match c.state
       case Active => c.visited != [] && c.stage == Some(c.visited[|c.visited| - 1]) && c.pending == None && !c.waiting
       case Pause =>
         if c.visited == [] then c.stage == None && c.pending == None && !c.waiting
         else |c.visited| < 4 && c.hasDialog && c.pending == Some(STAGES[|c.visited|]) && c.waiting
       case Complete => c.visited == STAGES && c.stage == None && c.pending == None && !c.waiting
  }

  /** How many stages are finished */
  function Finished(c: Calibration): nat {
    if c.state == Active && c.visited != [] then |c.visited| - 1 else |c.visited|
  }

  /** What the finished stages have left behind */
  predicate Filled(c: Calibration) {
    && AxisOk(c.steering, c.count) && AxisOk(c.throttle, c.count) && AxisOk(c.brake, c.count)
    && (Finished(c) >= 1 ==> SpanIsWide(c.steering))
    && (if Finished(c) >= 2 then |c.steering.idleSamples| == IDLE_SAMPLE_COUNT
        else |c.steering.idleSamples| < IDLE_SAMPLE_COUNT)
    && (Finished(c) >= 3 ==> SpanIsWide(c.throttle))
    && (Finished(c) >= 4 ==> SpanIsWide(c.brake))
    && (Finished(c) < 2 ==> c.throttle.axis == None)
    && (Finished(c) < 3 ==> c.brake.axis == None)
    && (c.throttle.axis.Some? ==> c.throttle.axis != c.steering.axis)
    && (c.brake.axis.Some? ==> c.brake.axis != c.steering.axis)
  }

  predicate CalibrationOk(c: Calibration) {
    Placed(c) && Filled(c)
  }

  function New(dialog: bool, count: nat): (c: Calibration)
    ensures CalibrationOk(c)
  {
    Calibration(dialog, count, UNKNOWN, UNKNOWN, UNKNOWN, None, Pause, None, false, [])
  }

  /** `start` */
  function Started(c: Calibration): Calibration {
    c.(state := Active, stage := Some(Steering), visited := [Steering])
  }

  /** `_queue_next_stage_with_dialog`: without a dialog nothing happens. */
  function Queued(c: Calibration, next: Stage): Calibration {
    if c.hasDialog then c.(waiting := true, pending := Some(next), state := Pause) else c
  }

  /** `_resume_calibration` */
  function Resumed(c: Calibration): Calibration
    requires c.pending.Some?
  {
    c.(stage := c.pending, pending := None, state := Active, waiting := false, visited := c.visited + [c.pending.value])
  }

  function Excluded(c: Calibration): set<nat> {
    if c.steering.axis.Some? then {c.steering.axis.value} else {}
  }

  /** `update` */
  function Updated(c: Calibration, axes: seq<real>, now: Time): Calibration
    requires CalibrationOk(c) && |axes| == c.count
  {
    if c.state != Active then c
    else match c.stage.value
      case Steering =>
        var (d, done) := DetectAndRecord(c.steering, axes, {}, now);
        if done then Queued(c.(steering := d), SteeringCenter) else c.(steering := d)
      case SteeringCenter =>
        var (d, done) := RecordIdle(c.steering, axes, now);
        if done then Queued(c.(steering := d), Throttle) else c.(steering := d)
      case Throttle =>
        var (d, done) := DetectAndRecord(c.throttle, axes, Excluded(c), now);
        if done then Queued(c.(throttle := d), Brake) else c.(throttle := d)
      case Brake =>
        var (d, done) := DetectAndRecord(c.brake, axes, Excluded(c), now);
        if done then c.(brake := d, state := Complete, stage := None) else c.(brake := d)
  }

  lemma DetectAndRecordKeepsOk(d: Axis, axes: seq<real>, excluded: set<nat>, now: Time)
    requires AxisOk(d, |axes|)
    ensures var (d', done) := DetectAndRecord(d, axes, excluded, now);
            && AxisOk(d', |axes|) && d'.idleSamples == d.idleSamples
            && (d.axis.Some? ==> d'.axis == d.axis)
            && (d.axis == None && d'.axis.Some? ==> d'.axis.value !in excluded)
            && (done ==> SpanIsWide(d'))
  {
    hide AxisOk, Detect, Record, SpanIsWide;
    if d.axis == None {
      DetectFinds(d, axes, excluded, now);
    } else {
      RecordKeepsOk(d, axes, now);
    }
  }

  lemma UpdatingKeepsOk(c: Calibration, axes: seq<real>, now: Time)
    requires CalibrationOk(c) && |axes| == c.count
    ensures CalibrationOk(Updated(c, axes, now))
    ensures Updated(c, axes, now).count == c.count && Updated(c, axes, now).hasDialog == c.hasDialog
    ensures Updated(c, axes, now).visited == c.visited
  {
    hide AxisOk, DetectAndRecord, RecordIdle, SpanIsWide;
    if c.state == Active {
      match c.stage.value
      case Steering => DetectAndRecordKeepsOk(c.steering, axes, {}, now);
      case SteeringCenter =>
        WideHasAxis(c.steering);
        RecordIdleKeepsOk(c.steering, axes, now);
        SpanKept(c.steering, RecordIdle(c.steering, axes, now).0);
      case Throttle => DetectAndRecordKeepsOk(c.throttle, axes, Excluded(c), now);
      case Brake => DetectAndRecordKeepsOk(c.brake, axes, Excluded(c), now);
    }
  }

  lemma WideHasAxis(d: Axis)
    requires SpanIsWide(d)
    ensures d.axis.Some?
  {
  }

  lemma SpanKept(d: Axis, d': Axis)
    requires d'.axis == d.axis && d'.maxValues == d.maxValues
    ensures SpanIsWide(d') == SpanIsWide(d)
  {
  }
}
