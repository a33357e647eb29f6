/**
 * How far the streamer's clock is ahead of the viewer's: round trips give samples, a sliding
 * window averages them, and the display uses the average to tell how old a frame is.
 */
module ClockOffset {
  import opened Reals
  import opened RelayTypes

  datatype Sample = Sample(at: Time, value: real)

  // ---------------------------------------------------------------- the sliding window

  /** The samples that are not older than the cutoff. */
  function Within(samples: seq<Sample>, cutoff: Time): seq<Sample> {
    if samples == [] then []
    else (if samples[0].at >= cutoff then [samples[0]] else []) + Within(samples[1..], cutoff)
  }

  predicate Sorted(samples: seq<Sample>) {
    forall i, j | 0 <= i < j < |samples| :: samples[i].at <= samples[j].at
  }

  lemma {:induction false} WithinOfMore(samples: seq<Sample>, s: Sample, cutoff: Time)
    ensures Within(samples + [s], cutoff) == Within(samples, cutoff) + if s.at >= cutoff then [s] else []
  {
    hide Within;
    if samples == [] {
      assert samples + [s] == [s];
      WithinOfOne(s, cutoff);
    } else {
      var longer := samples + [s];
      assert longer[1..] == samples[1..] + [s] && longer[0] == samples[0];
      WithinOfMore(samples[1..], s, cutoff);
      WithinUnfolds(samples, cutoff);
      WithinUnfolds(longer, cutoff);
    }
  }

  lemma WithinOfOne(s: Sample, cutoff: Time)
    ensures Within([], cutoff) == [] && Within([s], cutoff) == if s.at >= cutoff then [s] else []
  {
    assert [s][1..] == [];
  }

  lemma WithinUnfolds(samples: seq<Sample>, cutoff: Time)
    requires samples != []
    ensures Within(samples, cutoff) == (if samples[0].at >= cutoff then [samples[0]]
              else []) + Within(samples[1..], cutoff)
  {
  }

  /** Filtering with a later cutoff does not need what an earlier one removed. */
  lemma {:induction false} WithinTwice(samples: seq<Sample>, early: Time, late: Time)
    requires early <= late
    ensures Within(Within(samples, early), late) == Within(samples, late)
  {
    if samples != [] {
      WithinTwice(samples[1..], early, late);
      var rest := Within(samples[1..], early);
      assert ([samples[0]] + rest)[1..] == rest && [] + rest == rest;
      assert Within([], late) == [];
    }
  }

  lemma {:induction false} WithinAll(samples: seq<Sample>, cutoff: Time)
    requires forall i | 0 <= i < |samples| :: samples[i].at >= cutoff
    ensures Within(samples, cutoff) == samples
  {
    if samples != [] {
      WithinAll(samples[1..], cutoff);
    }
  }

  lemma {:induction false} WithinKeeps(samples: seq<Sample>, cutoff: Time)
    requires Sorted(samples)
    ensures Sorted(Within(samples, cutoff))
    ensures forall s | s in Within(samples, cutoff) :: s in samples && s.at >= cutoff
  {
    if samples != [] {
      assert forall i | 0 <= i < |samples| - 1 :: samples[1..][i] == samples[i + 1];
      WithinKeeps(samples[1..], cutoff);
      var rest := Within(samples[1..], cutoff);
      forall s | s in rest ensures samples[0].at <= s.at {
        var i :| 0 <= i < |samples| - 1 && samples[1..][i] == s;
      }
    }
  }

  /** Appending to the filtered samples and filtering again gives the filtered longer history. */
  lemma AppendingIsFiltering(history: seq<Sample>, early: Time, s: Sample, late: Time)
    requires Sorted(history) && (forall r | r in history :: r.at <= s.at) && (history == [] || early <= late)
    ensures Sorted(history + [s]) && Sorted(Within(history, early) + [s])
    ensures Within(Within(history, early) + [s], late) == Within(history + [s], late)
  {
    hide Within, Sorted;
    WithinKeeps(history, early);
    SortedWithLast(history, s);
    SortedWithLast(Within(history, early), s);
    WithinOfMore(history, s, late);
    WithinOfMore(Within(history, early), s, late);
    if history == [] {
      NothingWithin(early);
    } else {
      WithinTwice(history, early, late);
    }
  }

  lemma NothingWithin(cutoff: Time)
    ensures Within([], cutoff) == []
  {
  }

  lemma SortedWithLast(samples: seq<Sample>, s: Sample)
    requires Sorted(samples) && forall r | r in samples :: r.at <= s.at
    ensures Sorted(samples + [s])
  {
    assert forall i | 0 <= i < |samples| :: samples[i] in samples;
  }

  function Sum(samples: seq<Sample>): real {
    if samples == [] then 0.0 else Sum(samples[..|samples| - 1]) + samples[|samples| - 1].value
  }

  function Mean(samples: seq<Sample>): real {
    if samples == [] then 0.0 else Sum(samples) / |samples| as real
  }

  class SlidingWindowAverage {
    const window: real
    var samples: seq<Sample>
    /** All samples since the start or the last `clear`, and the time of the latest append. */
    ghost var history: seq<Sample>
    ghost var clock: Time

    /** Under a clock that never runs backwards, the deque is the history filtered by the window. */
    ghost predicate Valid()
      reads this
    {
      && Sorted(history)
      && (forall s | s in history :: s.at <= clock)
      && samples == Within(history, clock - window)
    }

    constructor (windowSeconds: real)
      ensures Valid() && window == windowSeconds && history == [] && samples == []
    {
      window, samples, history, clock := windowSeconds, [], [], 0.0;
    }

    method Append(value: real, now: Time)
      requires Valid() && (history == [] || clock <= now)
      modifies this
      ensures Valid() && history == old(history) + [Sample(now, value)] && clock == now
    {
      hide Within, Sorted;
      AppendingIsFiltering(history, clock - window, Sample(now, value), now - window);
      samples := samples + [Sample(now, value)];
      Evict(now);
      history, clock := history + [Sample(now, value)], now;
    }

    /** Drop samples at the front while they are too old. */
    method Evict(now: Time)
      requires Sorted(samples)
      modifies this`samples
      ensures samples == Within(old(samples), now - window)
    {
      var cutoff := now - window;
      while samples != [] && samples[0].at < cutoff
        invariant Sorted(samples)
        invariant Within(samples, cutoff) == Within(old(samples), cutoff)
        decreases |samples|
      {
        samples := samples[1..];
      }
      WithinAll(samples, cutoff);
    }

    method Average() returns (average: real)
      ensures average == Mean(samples) && (samples == [] ==> average == 0.0)
    {
      if samples == [] {
        return 0.0;
      }
      var sum := 0.0;
      for i := 0 to |samples|
        invariant sum == Sum(samples[..i])
      {
        assert samples[..i + 1][..i] == samples[..i];
        sum := sum + samples[i].value;
      }
      assert samples[..|samples|] == samples;
      return sum / |samples| as real;
    }

    method Clear()
      modifies this
      ensures Valid() && history == [] && samples == []
    {
      samples, history := [], [];
    }
  }

  // ---------------------------------------------------------------- averages

  predicate Close(a: real, b: real, e: real) {
    -e <= a - b <= e
  }

  lemma {:induction false} SumIsClose(samples: seq<Sample>, target: real, e: real)
    requires forall s | s in samples :: Close(s.value, target, e)
    ensures Close(Sum(samples), target * |samples| as real, e * |samples| as real)
  {
    if samples != [] {
      var n := |samples| - 1;
      SumIsClose(samples[..n], target, e);
      assert samples[n] in samples;
      assert target * (n + 1) as real == target * n as real + target;
      assert e * (n + 1) as real == e * n as real + e;
    }
  }

  /** The sum adds up the values, and the mean of some samples, times their number, is their sum. */
  lemma {:induction false} MeanTimesCount(samples: seq<Sample>, s: Sample)
    ensures Sum([]) == 0.0 && Sum(samples + [s]) == Sum(samples) + s.value
    ensures Mean([]) == 0.0 && Mean(samples) * |samples| as real == Sum(samples)
  {
    assert (samples + [s])[..|samples|] == samples;
    if samples != [] {
      var n := |samples| as real;
      assert Sum(samples) / n * n == Sum(samples);
    }
  }

  /** An average is as close to the target as its samples are. */
  lemma MeanIsClose(samples: seq<Sample>, target: real, e: real)
    requires samples != [] && forall s | s in samples :: Close(s.value, target, e)
    ensures Close(Mean(samples), target, e)
  {
    SumIsClose(samples, target, e);
    var n := |samples| as real;
    DivisionIsBounded(Sum(samples), n, target - e, target + e);
  }

  // ---------------------------------------------------------------- the offset

  const MICROSECONDS := 1000000.0

  /** Python's `int()` of a float: towards zero */
  function Truncate(x: real): int {
    if x >= 0.0 then x.Floor else -(-x).Floor
  }

  lemma TruncateIsClose(x: real)
    ensures x >= 0.0 ==> x - 1.0 < Truncate(x) as real <= x
    ensures x < 0.0 ==> x <= Truncate(x) as real < x + 1.0
  {
  }

  /** One round trip on the viewer's clock: sent, answered by the streamer, received. */
  datatype RoundTrip = RoundTrip(sent: Time, answered: Time, received: Time)

  predicate Causal(r: RoundTrip) {
    r.sent <= r.answered <= r.received
  }

  /** The sample of one round trip when the streamer's clock is ahead by `offset` seconds */
  function OffsetSample(viewerSend: Time, streamerTimestamp: Time, viewerReceive: Time): real {
    (streamerTimestamp - (viewerSend + viewerReceive) / 2.0) * MICROSECONDS
  }

  /** A single sample errs by at most half its round trip. */
  lemma SampleIsClose(r: RoundTrip, offset: real, bound: real)
    requires Causal(r) && r.received - r.sent <= bound
    ensures Close(OffsetSample(r.sent, r.answered + offset, r.received), offset * MICROSECONDS,
              bound / 2.0 * MICROSECONDS)
  {
  }

  class Estimator {
    const samples: SlidingWindowAverage
    /** The round trip behind each sample, and the true offset. */
    ghost var trips: seq<RoundTrip>
    ghost const offset: real

    ghost predicate Valid()
      reads this, samples
    {
      && samples.Valid()
      && |trips| == |samples.history|
      && forall i | 0 <= i < |trips| ::
           && Causal(trips[i])
           && samples.history[i].value == OffsetSample(trips[i].sent, trips[i].answered + offset, trips[i].received)
    }

    constructor (windowSeconds: real, ghost trueOffset: real)
      ensures Valid() && fresh(samples) && samples.window == windowSeconds && offset == trueOffset && trips == []
    {
      samples := new SlidingWindowAverage(windowSeconds);
      trips, offset := [], trueOffset;
    }

    /** `update`: the streamer answered at `r.answered`, by its own clock `offset` later. */
    method Update(viewerSend: Time, streamerTimestamp: Time, viewerReceive: Time, now: Time, ghost r: RoundTrip)
      requires Valid() && (samples.history == [] || samples.clock <= now)
      requires Causal(r) && viewerSend == r.sent && viewerReceive == r.received
                 && streamerTimestamp == r.answered + offset
      modifies this, samples
      ensures Valid() && trips == old(trips) + [r] && samples.clock == now
      ensures samples.history == old(samples.history)
                + [Sample(now, OffsetSample(viewerSend, streamerTimestamp, viewerReceive))]
    {
      var offsetUs := (streamerTimestamp - (viewerSend + viewerReceive) / 2.0) * MICROSECONDS;
      samples.Append(offsetUs, now);
      trips := trips + [r];
    }

    /** All round trips still in the window took at most `bound` seconds. */
    ghost predicate TripsWithin(bound: real)
      reads this, samples
      requires Valid()
    {
      forall i | 0 <= i < |trips| && samples.history[i].at >= samples.clock - samples.window ::
        trips[i].received - trips[i].sent <= bound
    }

    /** The estimate in microseconds, an integer */
    method OffsetUs() returns (us: int)
      requires Valid()
      ensures us == Truncate(Mean(samples.samples))
    {
      var average := samples.Average();
      us := if average >= 0.0 then average.Floor else -(-average).Floor;
    }

    /** The estimate errs by at most half the longest round trip in the window, before rounding. */
    lemma EstimateIsClose(bound: real)
      requires Valid() && samples.samples != [] && TripsWithin(bound)
      ensures Close(Mean(samples.samples), offset * MICROSECONDS, bound / 2.0 * MICROSECONDS)
    {
      WithinKeeps(samples.history, samples.clock - samples.window);
      forall s | s in samples.samples ensures Close(s.value, offset * MICROSECONDS, bound / 2.0 * MICROSECONDS) {
        var i :| 0 <= i < |samples.history| && samples.history[i] == s;
        SampleIsClose(trips[i], offset, bound);
      }
      MeanIsClose(samples.samples, offset * MICROSECONDS, bound / 2.0 * MICROSECONDS);
    }

    /**
     * A frame captured at `captured` and shown at `shown` (viewer's clock, after the epoch of
     * both clocks): the displayed end-to-end latency is off by less than half the longest round
     * trip in the window and two microseconds for three truncations.
     */
    lemma LatencyIsClose(bound: real, captured: Time, shown: Time, captureUs: int, e2eUs: int)
      requires Valid() && samples.samples != [] && TripsWithin(bound)
      requires shown >= 0.0
      requires captureUs == Truncate((captured + offset) * MICROSECONDS)
      requires LatencyUs(shown, captureUs, samples.samples != [], Truncate(Mean(samples.samples))) == Some(e2eUs)
      ensures -(bound / 2.0 * MICROSECONDS + 2.0) < e2eUs as real
                - (shown - captured) * MICROSECONDS < bound / 2.0 * MICROSECONDS + 2.0
    {
      EstimateIsClose(bound);
      TruncateIsClose(Mean(samples.samples));
      TruncateIsClose((captured + offset) * MICROSECONDS);
      TruncateIsClose(shown * MICROSECONDS);
    }
  }

  /** `_on_frame_displayed`: the latency that is recorded for a frame, if any. */
  function LatencyUs(shown: Time, captureUs: int, valid: bool, offsetUs: int): Option<int> {
    if captureUs <= 0 || !valid then None
    else
      var us := Truncate(shown * MICROSECONDS) - captureUs + offsetUs;
      if us >= 0 then Some(us) else None
  }

  /** A latency is recorded exactly for a stamped frame, a known offset and a difference that is not negative. */
  lemma LatencyExactly(shown: Time, captureUs: int, valid: bool, offsetUs: int)
    requires shown >= 0.0
    ensures var us := (shown * 1000000.0).Floor - captureUs + offsetUs;
            LatencyUs(shown, captureUs, valid, offsetUs) == if captureUs > 0 && valid && us >= 0 then Some(us) else None
  {
  }
}
