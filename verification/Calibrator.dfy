/**
 * Gamepad calibration in place: the calibrator changes the data of its three axes and its own
 * fields, each method as CalibrationSpec says.
 */
module Calibrator {
  import opened CalibrationRuns
  import opened CalibrationSpec
  import opened Reals
  import opened RelayTypes

  function Sum(values: seq<real>): real {
    if values == [] then 0.0 else values[0] + Sum(values[1..])
  }

  /** `max(range(len(diffs)), key=…)`: the first of the largest */
  method LargestIndex(diffs: seq<real>) returns (axis: nat)
    requires diffs != []
    ensures IsLargest(diffs, axis)
  {
    axis := 0;
    for i := 1 to |diffs|
      invariant axis < i
      invariant forall j | 0 <= j < i :: diffs[j] <= diffs[axis]
      invariant forall j | 0 <= j < axis :: diffs[j] < diffs[axis]
    {
      if diffs[i] > diffs[axis] {
        axis := i;
      }
    }
  }

  class AxisCalibrationData {
    var axis: Option<nat>
    var baseline: Option<seq<real>>
    var detectionStart: Option<Time>
    var maxValues: seq<real>
    var maxLast: Option<real>
    var maxStableSince: Option<Time>
    var minLast: Option<real>
    var minStableSince: Option<Time>
    var idleLast: Option<real>
    var idleStableSince: Option<Time>
    var idleSamples: seq<real>

    constructor ()
      ensures View() == UNKNOWN
    {
      axis, baseline, detectionStart, maxValues := None, None, None, [];
      maxLast, maxStableSince, minLast, minStableSince := None, None, None, None;
      idleLast, idleStableSince, idleSamples := None, None, [];
    }

    function View(): Axis
      reads this
    {
      Axis(axis, baseline, detectionStart, maxValues, maxLast, maxStableSince, minLast, minStableSince,
           idleLast, idleStableSince, idleSamples)
    }

    predicate Valid(count: nat)
      reads this
    {
      AxisOk(View(), count)
    }

    /** The first half of `_detect_and_record_axis`: find the axis that moves. Empty input raises. */
    method Detect(axes: seq<real>, excluded: set<nat>, now: Time) returns (raised: bool)
      requires Valid(|axes|) && axis == None
      modifies this`axis, this`baseline, this`detectionStart
      ensures View() == CalibrationSpec.Detect(old(View()), axes, excluded, now)
      ensures Valid(|axes|) && raised == (axes == [] && old(baseline).Some?)
      ensures axis.Some? ==>
                && old(baseline).Some? && old(detectionStart).Some? && now - old(detectionStart).value >= DETECTION_TIME
                && Moves(axis.value, axes, old(baseline).value, excluded)
      ensures detectionStart.Some? ==> old(baseline).Some? && exists i | 0 <= i < |axes| ::
                Moves(i, axes, old(baseline).value, excluded)
      ensures detectionStart.Some? ==>
                detectionStart == old(detectionStart) || (old(detectionStart) == None && detectionStart == Some(now))
    {
      hide Largest, Movement;
      DetectFinds(View(), axes, excluded, now);
      if baseline == None {
        baseline := Some(axes);
        return false;
      }
      var diffs := Movement(axes, baseline.value, excluded);
      if diffs == [] {
        return true;
      }
      var largest := LargestIndex(diffs);
      LargestIsUnique(diffs, largest, Largest(diffs));
      if diffs[largest] > AXIS_MOVEMENT_THRESHOLD {
        if detectionStart == None {
          detectionStart := Some(now);
        } else if now - detectionStart.value >= DETECTION_TIME {
          axis := Some(largest);
        }
      } else {
        detectionStart := None;
      }
      return false;
    }

    /** The second half: record the extremes until neither has moved for a while. */
    method Record(axes: seq<real>, now: Time) returns (done: bool)
      requires Valid(|axes|) && axis.Some?
      modifies this`maxValues, this`maxLast, this`maxStableSince, this`minLast, this`minStableSince
      ensures (View(), done) == CalibrationSpec.Record(old(View()), axes, now)
      ensures Valid(|axes|) && maxValues == old(maxValues) + [axes[axis.value]]
      ensures done <==>
                && SpanIsWide(View())
                && now - minStableSince.value >= STABLE_TIME && now - maxStableSince.value >= STABLE_TIME
      ensures maxStableSince == Some(now) || (maxStableSince == old(maxStableSince) && maxLast == old(maxLast))
      ensures minStableSince == Some(now) || (minStableSince == old(minStableSince) && minLast == old(minLast))
    {
      hide Max, Min, Abs;
      RecordKeepsOk(View(), axes, now);
      if maxValues != [] {
        ExtremesGrow(maxValues, axes[axis.value]);
      }
      maxValues := maxValues + [axes[axis.value]];
      var currentMax, currentMin := Max(maxValues), Min(maxValues);
      if maxLast == None || currentMax > maxLast.value + STABLE_CHANGE {
        maxLast, maxStableSince := Some(currentMax), Some(now);
      }
      if minLast == None || currentMin < minLast.value - STABLE_CHANGE {
        minLast, minStableSince := Some(currentMin), Some(now);
      }
      done :=
        && currentMax - currentMin >= AXIS_MOVEMENT_THRESHOLD
        && now - minStableSince.value >= STABLE_TIME
        && now - maxStableSince.value >= STABLE_TIME;
    }

    /** `_record_center_idle` */
    method RecordIdle(axes: seq<real>, now: Time) returns (done: bool)
      requires Valid(|axes|) && axis.Some?
      modifies this`idleLast, this`idleStableSince, this`idleSamples
      ensures (View(), done) == CalibrationSpec.RecordIdle(old(View()), axes, now)
      ensures Valid(|axes|)
      ensures idleLast == Some(axes[axis.value])
      ensures idleStableSince.Some? && old(idleLast).Some? ==>
                && Abs(axes[axis.value] - old(idleLast).value) < IDLE_CHANGE
                && idleStableSince == if old(idleStableSince).Some? then old(idleStableSince) else Some(now)
      ensures idleSamples == old(idleSamples) +
                if idleStableSince.Some? && old(idleLast).Some? && old(idleStableSince).Some?
                    && now - idleStableSince.value >= STABLE_TIME
                then [axes[axis.value]] else []
      ensures done ==> |idleSamples| >= IDLE_SAMPLE_COUNT
      ensures |idleSamples| >= IDLE_SAMPLE_COUNT > |old(idleSamples)| ==> done
    {
      var value := axes[axis.value];
      done := false;
      if idleLast == None {
        idleLast := Some(value);
        return;
      }
      if Abs(value - idleLast.value) < IDLE_CHANGE {
        if idleStableSince == None {
          idleStableSince := Some(now);
        } else if now - idleStableSince.value >= STABLE_TIME {
          idleSamples := idleSamples + [value];
          done := |idleSamples| >= IDLE_SAMPLE_COUNT;
        }
      } else {
        idleStableSince := None;
      }
      idleLast := Some(value);
    }
  }

  class GamepadCalibrator {
    const hasDialog: bool
    /** The number of axes of the gamepad, which does not change during a calibration */
    const count: nat
    const steering: AxisCalibrationData
    const throttle: AxisCalibrationData
    const brake: AxisCalibrationData
    var stage: Option<Stage>
    var state: CalibratorState
    var pendingStage: Option<Stage>
    var waitingForUser: bool

    /** The stages that were ever active, in order */
    ghost var visited: seq<Stage>

    predicate Objects()
      reads this
    {
      steering != throttle && steering != brake && throttle != brake
    }

    ghost function View(): Calibration
      reads this, steering, throttle, brake
    {
      Calibration(hasDialog, count, steering.View(), throttle.View(), brake.View(), stage, state, pendingStage,
          waitingForUser, visited)
    }

    ghost predicate Valid()
      reads this, steering, throttle, brake
    {
      Objects() && CalibrationOk(View())
    }

    constructor (dialog: bool, axisCount: nat)
      ensures Valid() && fresh(steering) && fresh(throttle) && fresh(brake)
      ensures View() == New(dialog, axisCount)
    {
      hasDialog, count := dialog, axisCount;
      steering := new AxisCalibrationData();
      throttle := new AxisCalibrationData();
      brake := new AxisCalibrationData();
      stage, state, pendingStage, waitingForUser, visited := None, Pause, None, false, [];
    }

    /** The one call that begins a calibration */
    method Start()
      requires Valid() && visited == []
      modifies this
      ensures Valid() && View() == Started(old(View()))
    {
      state, stage, visited := Active, Some(Steering), [Steering];
    }

    /** `_queue_next_stage_with_dialog`: without a dialog nothing happens. */
    method QueueNextStage(next: Stage)
      modifies this`waitingForUser, this`pendingStage, this`state
      ensures View() == Queued(old(View()), next)
    {
      if hasDialog {
        waitingForUser, pendingStage, state := true, Some(next), Pause;
      }
    }

    /** `_resume_calibration`: the user confirms the dialog that is shown. */
    method Resume()
      requires Valid() && waitingForUser
      modifies this
      ensures Valid() && View() == Resumed(old(View()))
      ensures state == Active && visited == old(visited) + [STAGES[|old(visited)|]]
    {
      hide AxisOk, SpanIsWide;
      ResumingKeepsOk(View());
      visited := visited + [pendingStage.value];
      stage, pendingStage, state, waitingForUser := pendingStage, None, Active, false;
    }

    /** `_detect_and_record_axis` for the axis under calibration; `done` when its range is known. */
    method DetectAndRecord(data: AxisCalibrationData, axes: seq<real>, excluded: set<nat>, now: Time)
      returns (done: bool, raised: bool)
      requires data.Valid(|axes|)
      modifies data
      ensures (data.View(), done) == CalibrationSpec.DetectAndRecord(old(data.View()), axes, excluded, now)
      ensures data.Valid(|axes|) && data.idleSamples == old(data.idleSamples)
      ensures old(data.axis).Some? ==> data.axis == old(data.axis)
      ensures old(data.axis) == None && data.axis.Some? ==> data.axis.value !in excluded
      ensures done ==> SpanIsWide(data.View())
      ensures raised <==> axes == [] && old(data.axis) == None && old(data.baseline).Some?
    {
      hide CalibrationSpec.Detect, CalibrationSpec.Record, SpanIsWide;
      DetectAndRecordKeepsOk(data.View(), axes, excluded, now);
      done, raised := false, false;
      if data.axis == None {
        raised := data.Detect(axes, excluded, now);
      } else {
        done := data.Record(axes, now);
      }
    }

    function ExcludedAxes(): set<nat>
      reads this, steering
    {
      if steering.axis.Some? then {steering.axis.value} else {}
    }

    method UpdateSteering(axes: seq<real>, now: Time) returns (raised: bool)
      requires Valid() && |axes| == count && state == Active && stage == Some(Steering)
      modifies this, steering
      ensures Valid() && View() == Updated(old(View()), axes, now)
      ensures raised <==> count == 0 && old(steering.axis) == None && old(steering.baseline).Some?
      ensures state == Active || (state == Pause && hasDialog && SpanIsWide(steering.View()))
    {
      hide AxisOk, CalibrationSpec.DetectAndRecord, SpanIsWide;
      UpdatingKeepsOk(View(), axes, now);
      var done;
      done, raised := DetectAndRecord(steering, axes, {}, now);
      if done {
        QueueNextStage(SteeringCenter);
      }
    }

    method UpdateCenter(axes: seq<real>, now: Time)
      requires Valid() && |axes| == count && state == Active && stage == Some(SteeringCenter)
      modifies this, steering
      ensures Valid() && View() == Updated(old(View()), axes, now)
      ensures state == Active || state == Pause
    {
      hide AxisOk, CalibrationSpec.RecordIdle, SpanIsWide;
      UpdatingKeepsOk(View(), axes, now);
      WideHasAxis(steering.View());
      var done := steering.RecordIdle(axes, now);
      if done {
        QueueNextStage(Throttle);
      }
    }

    method UpdateThrottle(axes: seq<real>, now: Time) returns (raised: bool)
      requires Valid() && |axes| == count && state == Active && stage == Some(Throttle)
      modifies this, throttle
      ensures Valid() && View() == Updated(old(View()), axes, now)
      ensures raised <==> count == 0 && old(throttle.axis) == None && old(throttle.baseline).Some?
      ensures state == Active || state == Pause
    {
      hide AxisOk, CalibrationSpec.DetectAndRecord, SpanIsWide;
      UpdatingKeepsOk(View(), axes, now);
      var done;
      done, raised := DetectAndRecord(throttle, axes, ExcludedAxes(), now);
      if done {
        QueueNextStage(Brake);
      }
    }

    method UpdateBrake(axes: seq<real>, now: Time) returns (raised: bool)
      requires Valid() && |axes| == count && state == Active && stage == Some(Brake)
      modifies this, brake
      ensures Valid() && View() == Updated(old(View()), axes, now)
      ensures raised <==> count == 0 && old(brake.axis) == None && old(brake.baseline).Some?
      ensures state == Active || state == Complete
    {
      hide AxisOk, CalibrationSpec.DetectAndRecord, SpanIsWide;
      UpdatingKeepsOk(View(), axes, now);
      var done;
      done, raised := DetectAndRecord(brake, axes, ExcludedAxes(), now);
      if done {
        state, stage := Complete, None;
      }
    }

    /**
     * `update`. No field is ever read before it is set: the only way to raise is a gamepad
     * without axes.
     */
    method Update(axes: seq<real>, now: Time) returns (raised: bool)
      requires Valid() && |axes| == count
      modifies this, steering, throttle, brake
      ensures Valid() && View() == Updated(old(View()), axes, now)
      ensures visited == old(visited)
      ensures raised <==> count == 0 && old(state) == Active && old(steering.baseline).Some?
      ensures old(state) != Active ==> state == old(state) && stage == old(stage)
      ensures state == Complete && old(state) != Complete ==> old(stage) == Some(Brake)
    {
      hide AxisOk, SpanIsWide, CalibrationSpec.DetectAndRecord, CalibrationSpec.RecordIdle;
      UpdatingKeepsOk(View(), axes, now);
      AxesAreNeeded(View());
      NoAxisToFind(steering.View(), count);
      if state != Active {
        return false;
      }
      match stage.value {
        case Steering => raised := UpdateSteering(axes, now);
        case SteeringCenter => raised := false; UpdateCenter(axes, now);
        case Throttle => raised := UpdateThrottle(axes, now);
        case Brake => raised := UpdateBrake(axes, now);
      }
    }

    /** One input: a sample, or the user's confirmation, which counts only while a dialog is shown */
    method Receive(input: Input)
      requires Valid() && Fits(input, count)
      modifies this, steering, throttle, brake
      ensures Valid() && View() == Take(old(View()), input)
    {
      hide CalibrationOk, Updated, Resumed;
      match input {
        case Sample(axes, now) =>
          var _ := Update(axes, now);
        case Confirm =>
          if waitingForUser {
            Resume();
          }
      }
    }

    /**
     * `get_settings` for one axis: its smallest and largest recorded value, and for the steering
     * axis the center from which the idle samples deviate by zero in sum.
     */
    method Settings(data: AxisCalibrationData) returns (axis: Option<nat>, min: real, max: real, center: Option<real>)
      requires Valid() && data in {steering, throttle, brake}
      ensures axis == data.axis
      ensures state == Complete ==> axis.Some? && max - min >= AXIS_MOVEMENT_THRESHOLD
      ensures state == Complete ==> (center.Some? <==> data == steering)
      ensures forall v | v in data.maxValues :: min <= v <= max
      ensures if data.maxValues == [] then min == max == 0.0 else min in data.maxValues && max in data.maxValues
      ensures center.Some? <==> data == steering && data.idleSamples != []
      ensures center.Some? ==> Within(center.value, data.idleSamples)
      ensures center.Some? ==> Sum(Deviations(data.idleSamples, center.value)) == 0.0
    {
      axis, min, max, center := data.axis, 0.0, 0.0, None;
      if data.maxValues != [] {
        min, max := Min(data.maxValues), Max(data.maxValues);
      }
      if data == steering && data.idleSamples != [] {
        center := Some(Sum(data.idleSamples) / |data.idleSamples| as real);
        MeanIsWithin(data.idleSamples);
        MeanIsBalanced(data.idleSamples);
      }
    }
  }

  /**
   * A whole calibration, whatever the user does. Its stages come in order; when it is complete,
   * it has gone through all of them and its results are usable; without a dialog it stays in the
   * first. CompletionIff in CalibrationRuns says that `After` can lead to completion, and when.
   */
  method Calibrate(dialog: bool, count: nat, inputs: seq<Input>) returns (c: GamepadCalibrator)
    requires AllFit(inputs, count)
    ensures c.View() == After(Begun(dialog, count), inputs)
    ensures c.visited <= [Steering, SteeringCenter, Throttle, Brake]
    ensures c.state == Complete ==>
              && c.visited == STAGES && dialog && count >= 2
              && SpanIsWide(c.steering.View()) && SpanIsWide(c.throttle.View()) && SpanIsWide(c.brake.View())
              && c.throttle.axis != c.steering.axis && c.brake.axis != c.steering.axis
              && |c.steering.idleSamples| == IDLE_SAMPLE_COUNT
    ensures !dialog || count == 0 ==> c.state == Active && c.stage == Some(Steering) && c.visited == [Steering]
    ensures count == 1 ==> |c.visited| <= 3 && (|c.visited| == 3 ==> c.state == Active && c.stage == Some(Throttle))
  {
    hide CalibrationOk, Take, SpanIsWide;
    c := new GamepadCalibrator(dialog, count);
    c.Start();
    for i := 0 to |inputs|
      invariant c.Valid() && c.View() == After(Begun(dialog, count), inputs[..i])
      invariant fresh(c) && fresh(c.steering) && fresh(c.throttle) && fresh(c.brake)
    {
      c.Receive(inputs[i]);
      assert inputs[..i + 1][..i] == inputs[..i];
    }
    assert inputs[..|inputs|] == inputs;
    InOrder(c.View());
    WhereItStays(c.View());
    if c.state == Complete {
      CompleteIsUsable(c.View());
    }
  }

  /** Not below the smallest and not above the largest of the values */
  predicate Within(x: real, values: seq<real>) {
    values != [] && Min(values) <= x <= Max(values)
  }

  lemma {:induction false} SumIsBounded(values: seq<real>, low: real, high: real)
    requires forall v | v in values :: low <= v <= high
    ensures low * |values| as real <= Sum(values) <= high * |values| as real
  {
    if values != [] {
      var n := |values| - 1;
      assert forall v | v in values[1..] :: v in values;
      SumIsBounded(values[1..], low, high);
      assert values[0] in values;
      assert low * (n + 1) as real == low * n as real + low;
      assert high * (n + 1) as real == high * n as real + high;
    }
  }

  /** How far each value lies from `center` */
  function Deviations(values: seq<real>, center: real): (deviations: seq<real>)
    ensures |deviations| == |values|
    ensures forall k | 0 <= k < |values| :: deviations[k] == values[k] - center
  {
    seq(|values|, k requires 0 <= k < |values| => values[k] - center)
  }

  /** The sum is what addition says: of one value the value, and of two lists that of both. */
  lemma {:induction false} SumAdds(one: seq<real>, two: seq<real>, x: real)
    ensures Sum([x]) == x && Sum([]) == 0.0
    ensures Sum(one + two) == Sum(one) + Sum(two)
  {
    if one == [] {
      assert one + two == two;
    } else {
      assert (one + two)[1..] == one[1..] + two;
      SumAdds(one[1..], two, x);
    }
  }

  lemma {:induction false} SumOfDeviations(values: seq<real>, center: real)
    ensures Sum(Deviations(values, center)) == Sum(values) - center * |values| as real
  {
    if values != [] {
      SumOfDeviations(values[1..], center);
      assert Deviations(values, center)[1..] == Deviations(values[1..], center);
      var n := |values| - 1;
      assert center * (n + 1) as real == center * n as real + center;
    }
  }

  lemma MeanIsBalanced(values: seq<real>)
    requires values != []
    ensures Sum(Deviations(values, Sum(values) / |values| as real)) == 0.0
  {
    SumOfDeviations(values, Sum(values) / |values| as real);
  }

  lemma MeanIsWithin(values: seq<real>)
    requires values != []
    ensures Within(Sum(values) / |values| as real, values)
  {
    hide Max, Min, Sum;
    var low, high, n := Min(values), Max(values), |values| as real;
    SumIsBounded(values, low, high);
    DivisionIsBounded(Sum(values), n, low, high);
  }
}
