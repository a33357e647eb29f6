/**
 * The buffer between decoder and display. A frame is known by its place in the order of
 * arrival; frames leave the buffer oldest first, and `fates` says for each frame that has left
 * what became of it.
 */
module FrameBuffer {
  import opened RelayTypes

  const MAX_FRAME_BUFFER_SIZE := 300

  datatype Fate = Displayed | BurstDropped | Evicted | Cleared

  /** Appending to a `deque(maxlen=300)` */
  function Push<T>(queue: seq<T>, x: T): (longer: seq<T>)
    ensures |queue| <= MAX_FRAME_BUFFER_SIZE ==> 0 < |longer| <= MAX_FRAME_BUFFER_SIZE
    ensures |longer| == if |queue| < 300 then |queue| + 1 else |queue|
  {
    if |queue| < MAX_FRAME_BUFFER_SIZE then queue + [x] else queue[1..] + [x]
  }

  function Times(fate: Fate, n: nat): (fates: seq<Fate>)
    ensures |fates| == n && multiset(fates)[fate] == n
    ensures forall other | other != fate :: other !in fates
  {
    if n == 0 then [] else Times(fate, n - 1) + [fate]
  }

  /** `round(300 * ratio / 100)` */
  function TargetSize(ratio: nat): nat {
    3 * ratio
  }

  /** How many of `length` buffered frames a pick skips. */
  function Skipped(ratio: nat, length: nat): (n: nat)
    requires length > 0
    ensures n < length
  {
    if ratio == 100 then 0
    else if ratio == 0 then length - 1
    else if length > TargetSize(ratio) + 1 then length - TargetSize(ratio) - 1 else 0
  }

  /** The numbers first, …, first + n - 1 */
  function Numbers(first: nat, n: nat): (numbers: seq<nat>)
    ensures |numbers| == n
  {
    seq(n, i requires 0 <= i < n => first + i)
  }

  // ---------------------------------------------------------------- accounts

  /** The frames that have left, then the buffered ones, are all that arrived. */
  predicate Accounted(fates: seq<Fate>, buffer: seq<nat>, arrived: nat) {
    arrived == |fates| + |buffer| && buffer == Numbers(|fates|, |buffer|)
  }

  /** The counters count the fates from `mark` on, when they were last set to zero. */
  ghost predicate Counted(fates: seq<Fate>, mark: nat, rendered: nat, dropped: nat) {
    && mark <= |fates|
    && multiset(fates[mark..])[Displayed] == rendered
    && multiset(fates[mark..])[BurstDropped] == dropped
  }

  predicate Ascending(numbers: seq<nat>) {
    forall i, j | 0 <= i < j < |numbers| :: numbers[i] < numbers[j]
  }

  /** `displayed` lists the frames shown, in the order of arrival. */
  ghost predicate ShownInOrder(fates: seq<Fate>, displayed: seq<nat>) {
    && Ascending(displayed)
    && forall i :: i in displayed <==> 0 <= i < |fates| && fates[i] == Displayed
  }

  /** The queue holds the latest entries of the history. */
  ghost predicate IsTail<T>(queue: seq<T>, history: seq<T>) {
    |queue| <= |history| && queue == history[|history| - |queue|..]
  }

  lemma PushKeepsTail<T>(queue: seq<T>, history: seq<T>, x: T)
    requires IsTail(queue, history)
    ensures IsTail(Push(queue, x), history + [x])
  {
  }

  lemma PopKeepsTail<T>(queue: seq<T>, history: seq<T>)
    requires IsTail(queue, history) && queue != []
    ensures IsTail(queue[1..], history)
    ensures queue[0] == history[|history| - |queue|]
  {
  }

  lemma LastOfTail<T>(queue: seq<T>, history: seq<T>)
    requires IsTail(queue, history)
    ensures IsTail([], history)
    ensures queue != [] ==> history != [] && queue[|queue| - 1] == history[|history| - 1]
  {
  }

  lemma EmptyIsTail<T>(history: seq<T>)
    ensures IsTail([], history)
  {
  }

  lemma ArrivalAccounted(fates: seq<Fate>, buffer: seq<nat>, arrived: nat)
    requires Accounted(fates, buffer, arrived) && |buffer| <= MAX_FRAME_BUFFER_SIZE
    ensures Accounted(fates + (if |buffer| == MAX_FRAME_BUFFER_SIZE then [Evicted] else []), Push(buffer, arrived),
              arrived + 1)
  {
  }

  /** The frames numbered |fates|, … leave together with these fates. */
  lemma LeavingAccounted(fates: seq<Fate>, buffer: seq<nat>, arrived: nat, leaving: seq<Fate>)
    requires Accounted(fates, buffer, arrived) && |leaving| <= |buffer|
    ensures Accounted(fates + leaving, buffer[|leaving|..], arrived)
    ensures |leaving| < |buffer| ==> buffer[|leaving|] == |fates + leaving|
    ensures arrived == |fates| + |buffer|
  {
  }

  lemma LeavingUnseen(fates: seq<Fate>, displayed: seq<nat>, leaving: seq<Fate>)
    requires ShownInOrder(fates, displayed) && Displayed !in leaving
    ensures ShownInOrder(fates + leaving, displayed)
  {
    forall i ensures i in displayed <==> 0 <= i < |fates + leaving| && (fates + leaving)[i] == Displayed {
      if |fates| <= i < |fates + leaving| {
        assert (fates + leaving)[i] == leaving[i - |fates|];
      }
    }
  }

  lemma LeavingShown(fates: seq<Fate>, displayed: seq<nat>)
    requires ShownInOrder(fates, displayed)
    ensures ShownInOrder(fates + [Displayed], displayed + [|fates|])
  {
    assert forall i | 0 <= i < |displayed| :: displayed[i] in displayed;
  }

  /** `n` frames leave with the same fate. */
  lemma LeavingCounted(fates: seq<Fate>, mark: nat, rendered: nat, dropped: nat, fate: Fate, n: nat)
    requires Counted(fates, mark, rendered, dropped)
    ensures Counted(fates + Times(fate, n), mark,
              if fate == Displayed then rendered + n else rendered,
              if fate == BurstDropped then dropped + n else dropped)
  {
    var leaving, since := Times(fate, n), fates[mark..];
    assert (fates + leaving)[mark..] == since + leaving;
    assert multiset(since + leaving) == multiset(since) + multiset(leaving);
    assert Displayed in {fate} || Displayed !in leaving;
    assert BurstDropped in {fate} || BurstDropped !in leaving;
  }

  lemma SkippingNone(fates: seq<Fate>)
    ensures fates + Times(BurstDropped, 0) == fates
  {
  }

  lemma SkippedCases(ratio: nat, length: nat)
    requires length > 0
    ensures Skipped(100, length) == 0 && Skipped(0, length) == length - 1
    ensures 0 < ratio < 100 ==> Skipped(ratio, length) == if length - 3 * ratio - 1 > 0 then length - 3 * ratio - 1
              else 0
  {
  }

  lemma TimesOne(fate: Fate)
    ensures Times(fate, 1) == [fate]
  {
    assert Times(fate, 0) == [];
  }

  lemma EvictionCounted(fates: seq<Fate>, mark: nat, rendered: nat, dropped: nat, leaving: seq<Fate>)
    requires Counted(fates, mark, rendered, dropped) && leaving in {[], [Evicted]}
    ensures Counted(fates + leaving, mark, rendered, dropped)
  {
    TimesOne(Evicted);
    LeavingCounted(fates, mark, rendered, dropped, Evicted, |leaving|);
    assert Times(Evicted, |leaving|) == leaving;
  }

  /** All frames leave: the newest to the display, the others unseen. */
  lemma NewestTaken(fates: seq<Fate>, displayed: seq<nat>, buffer: seq<nat>, arrived: nat, mark: nat, rendered: nat,
      dropped: nat)
    requires Accounted(fates, buffer, arrived) && Counted(fates, mark, rendered, dropped)
               && ShownInOrder(fates, displayed)
    requires buffer != []
    ensures var n := |buffer| - 1;
            var later := fates + Times(BurstDropped, n) + [Displayed];
            && buffer[n] == |fates| + n
            && Accounted(later, [], arrived)
            && Counted(later, mark, rendered + 1, dropped + n)
            && ShownInOrder(later, displayed + [|fates| + n])
  {
    hide Accounted, Counted, ShownInOrder, Times;
    var n := |buffer| - 1;
    var skipped := Times(BurstDropped, n);
    LeavingAccounted(fates, buffer, arrived, skipped);
    LeavingCounted(fates, mark, rendered, dropped, BurstDropped, n);
    LeavingUnseen(fates, displayed, skipped);
    LeavingAccounted(fates + skipped, buffer[n..], arrived, [Displayed]);
    LeavingCounted(fates + skipped, mark, rendered, dropped + n, Displayed, 1);
    TimesOne(Displayed);
    LeavingShown(fates + skipped, displayed);
    assert buffer[n..][1..] == [];
  }

  class Receiver {
    var renderRatio: nat
    var frame: Option<nat>
    var frameBuffer: seq<nat>
    var timingEnabled: bool
    var frameTimestamps: seq<Time>
    var decodeDurations: seq<Time>
    var captureTimestamps: seq<int>
    var lastDisplayedDecodeTime: Option<Time>
    var decodedFrameCount: nat
    var renderedFrameCount: nat
    var droppedBurstFrames: nat
    const logInterval: Time
    var lastLogTime: Time

    /** How many frames have ever arrived. */
    ghost var arrived: nat
    /** At the last reset of the counters: how many frames had left, how many were in the buffer. */
    ghost var mark: nat
    ghost var carried: nat
    ghost var fates: seq<Fate>
    ghost var displayed: seq<nat>
    /** What every arrival brought along. */
    ghost var stamps: seq<Time>
    ghost var durations: seq<Time>
    ghost var captures: seq<int>

    /**
     * Every frame that ever arrived has left with one fate or is still in the buffer, which
     * holds the latest ones in order.
     */
    ghost predicate Valid()
      reads this
    {
      && renderRatio <= 100
      && |stamps| == |durations| == |captures| == arrived
      && Accounts()
    }

    /** What `Valid` says about the frames */
    ghost predicate Accounts()
      reads this`frame, this`frameBuffer, this`decodedFrameCount, this`renderedFrameCount, this`droppedBurstFrames
      reads this`fates, this`displayed, this`arrived, this`mark, this`carried
    {
      && |frameBuffer| <= MAX_FRAME_BUFFER_SIZE
      && Accounted(fates, frameBuffer, arrived)
      && decodedFrameCount + mark + carried == arrived
      && Counted(fates, mark, renderedFrameCount, droppedBurstFrames)
      && ShownInOrder(fates, displayed)
      && (frame.Some? ==> displayed != [] && frame.value == displayed[|displayed| - 1])
    }

    lemma BufferIsBounded()
      requires Accounts()
      ensures |frameBuffer| <= MAX_FRAME_BUFFER_SIZE
    {
    }

    lemma AccountsLength()
      requires Accounts()
      ensures arrived == |fates| + |frameBuffer|
    {
    }

    lemma RatioInRange()
      requires Valid()
      ensures renderRatio <= 100
    {
    }

    method TakeOldest()
      requires Accounts() && frameBuffer != []
      modifies this`frame, this`frameBuffer, this`renderedFrameCount, this`fates, this`displayed
      ensures Accounts()
      ensures fates == old(fates) + [Displayed] && displayed == old(displayed) + [|old(fates)|]
      ensures frameBuffer == old(frameBuffer)[1..] && frame == Some(|old(fates)|)
    {
      hide Accounted, Counted, ShownInOrder;
      Show();
      frame := Some(frameBuffer[0]);
      frameBuffer := frameBuffer[1..];
      renderedFrameCount := renderedFrameCount + 1;
    }

    method SkipOldest()
      requires Accounts() && frameBuffer != []
      modifies this`frameBuffer, this`droppedBurstFrames, this`fates
      ensures Accounts()
      ensures fates == old(fates) + [BurstDropped] && frameBuffer == old(frameBuffer)[1..]
    {
      hide Accounted, Counted, ShownInOrder, Times;
      LeavingAccounted(fates, frameBuffer, arrived, [BurstDropped]);
      LeavingCounted(fates, mark, renderedFrameCount, droppedBurstFrames, BurstDropped, 1);
      TimesOne(BurstDropped);
      LeavingUnseen(fates, displayed, [BurstDropped]);
      frameBuffer := frameBuffer[1..];
      droppedBurstFrames := droppedBurstFrames + 1;
      fates := fates + [BurstDropped];
    }

    method TakeNewest()
      requires Accounts() && frameBuffer != []
      modifies this`frame, this`frameBuffer, this`renderedFrameCount, this`droppedBurstFrames, this`fates,
          this`displayed
      ensures Accounts() && frameBuffer == []
      ensures var n := |old(frameBuffer)| - 1;
              && fates == old(fates) + Times(BurstDropped, n) + [Displayed]
              && displayed == old(displayed) + [|old(fates)| + n] && frame == Some(|old(fates)| + n)
    {
      hide Accounted, Counted, ShownInOrder, Times;
      ghost var n := |frameBuffer| - 1;
      NewestTaken(fates, displayed, frameBuffer, arrived, mark, renderedFrameCount, droppedBurstFrames);
      frame := Some(frameBuffer[|frameBuffer| - 1]);
      droppedBurstFrames := droppedBurstFrames + (|frameBuffer| - 1);
      frameBuffer := [];
      renderedFrameCount := renderedFrameCount + 1;
      displayed := displayed + [|fates| + n];
      fates := fates + Times(BurstDropped, n) + [Displayed];
    }

    /** The timing queues hold the data of the last arrivals, at least of all buffered frames. */
    ghost predicate Timed()
      reads this
    {
      |frameBuffer| <= |frameTimestamps| <= MAX_FRAME_BUFFER_SIZE && InStep()
    }

    /** The queues are of equal length and hold the data of the last arrivals. */
    ghost predicate InStep()
      reads this`frameTimestamps, this`decodeDurations, this`captureTimestamps
      reads this`stamps, this`durations, this`captures
    {
      && |frameTimestamps| == |decodeDurations| == |captureTimestamps|
      && IsTail(frameTimestamps, stamps) && IsTail(decodeDurations, durations) && IsTail(captureTimestamps, captures)
    }

    /** How many entries of frames that are gone stand at the front of the timing queues. */
    ghost function Stale(): int
      reads this
    {
      |frameTimestamps| - |frameBuffer|
    }

    /** The timing queues and the time of the frame displayed last */
    function Timings(): (seq<Time>, seq<Time>, seq<int>, Option<Time>)
      reads this`frameTimestamps, this`decodeDurations, this`captureTimestamps, this`lastDisplayedDecodeTime
    {
      (frameTimestamps, decodeDurations, captureTimestamps, lastDisplayedDecodeTime)
    }

    constructor (ratio: nat, interval: Time)
      requires ratio <= 100
      ensures Valid() && Timed() && Stale() == 0 && !timingEnabled && renderRatio == ratio && logInterval == interval
      ensures fates == [] && frameBuffer == [] && arrived == 0 && stamps == []
    {
      logInterval, lastLogTime, arrived, mark, carried := interval, 0.0, 0, 0, 0;
      renderRatio, frame, frameBuffer := ratio, None, [];
      timingEnabled, frameTimestamps, decodeDurations, captureTimestamps := false, [], [], [];
      lastDisplayedDecodeTime, decodedFrameCount, renderedFrameCount, droppedBurstFrames := None, 0, 0, 0;
      fates, displayed, stamps, durations, captures := [], [], [], [], [];
    }

    method EnableTiming(enabled: bool)
      requires Valid()
      modifies this`timingEnabled
      ensures timingEnabled == enabled && Valid() && Timed() == old(Timed()) && Stale() == old(Stale())
    {
      timingEnabled := enabled;
    }

    /** `_update_frame`: a full buffer evicts its oldest frame. */
    method UpdateFrame(newFrame: nat, now: Time, duration: Time, capture: int)
      requires Valid() && newFrame == arrived
      modifies this`frameBuffer, this`decodedFrameCount, this`fates, this`arrived,
        this`frameTimestamps, this`decodeDurations, this`captureTimestamps, this`stamps, this`durations, this`captures
      ensures Valid()
      ensures arrived == old(arrived) + 1 && decodedFrameCount == old(decodedFrameCount) + 1
      ensures frameBuffer == Push(old(frameBuffer), newFrame)
      ensures fates == old(fates) + if |old(frameBuffer)| == MAX_FRAME_BUFFER_SIZE then [Evicted] else []
      ensures stamps == old(stamps) + [now] && durations == old(durations) + [duration]
                && captures == old(captures) + [capture]
      ensures !timingEnabled ==>
                && frameTimestamps == old(frameTimestamps) && decodeDurations == old(decodeDurations)
                && captureTimestamps == old(captureTimestamps)
      ensures old(Timed()) && timingEnabled ==> Timed()
      ensures old(Timed()) && timingEnabled ==>
                Stale() == old(Stale()) -
                  (if |old(frameBuffer)| < |old(frameTimestamps)| == MAX_FRAME_BUFFER_SIZE then 1 else 0)
    {
      hide Accounts, InStep, Push, Valid, Timed;
      ValidParts();
      TimedParts();
      BufferIsBounded();
      AppendFrame(newFrame);
      AppendTimings(now, duration, capture);
      ValidParts();
      TimedParts();
    }

    lemma ValidParts()
      ensures Valid() <==> renderRatio <= 100 && |stamps| == |durations| == |captures| == arrived && Accounts()
    {
    }

    lemma TimedParts()
      ensures Timed() <==> |frameBuffer| <= |frameTimestamps| <= MAX_FRAME_BUFFER_SIZE && InStep()
    {
    }

    method AppendFrame(newFrame: nat)
      requires Accounts() && newFrame == arrived
      modifies this`frameBuffer, this`decodedFrameCount, this`fates, this`arrived
      ensures Accounts() && arrived == old(arrived) + 1 && decodedFrameCount == old(decodedFrameCount) + 1
      ensures frameBuffer == Push(old(frameBuffer), newFrame)
      ensures fates == old(fates) + if |old(frameBuffer)| == MAX_FRAME_BUFFER_SIZE then [Evicted] else []
    {
      hide Accounted, Counted, ShownInOrder, Push;
      ghost var leaving := if |frameBuffer| == MAX_FRAME_BUFFER_SIZE then [Evicted] else [];
      ArrivalAccounted(fates, frameBuffer, arrived);
      EvictionCounted(fates, mark, renderedFrameCount, droppedBurstFrames, leaving);
      LeavingUnseen(fates, displayed, leaving);
      frameBuffer := Push(frameBuffer, newFrame);
      decodedFrameCount, arrived := decodedFrameCount + 1, arrived + 1;
      fates := fates + leaving;
    }

    /** The timing part of `_update_frame` */
    method AppendTimings(now: Time, duration: Time, capture: int)
      modifies this`frameTimestamps, this`decodeDurations, this`captureTimestamps, this`stamps, this`durations,
          this`captures
      ensures stamps == old(stamps) + [now] && durations == old(durations) + [duration]
                && captures == old(captures) + [capture]
      ensures timingEnabled && old(InStep()) ==> InStep()
      ensures !timingEnabled ==>
                && frameTimestamps == old(frameTimestamps) && decodeDurations == old(decodeDurations)
                && captureTimestamps == old(captureTimestamps)
      ensures timingEnabled ==> |frameTimestamps| == |Push(old(frameTimestamps), now)|
    {
      hide IsTail, Push;
      if timingEnabled {
        if IsTail(frameTimestamps, stamps) {
          PushKeepsTail(frameTimestamps, stamps, now);
        }
        if IsTail(decodeDurations, durations) {
          PushKeepsTail(decodeDurations, durations, duration);
        }
        if IsTail(captureTimestamps, captures) {
          PushKeepsTail(captureTimestamps, captures, capture);
        }
        frameTimestamps := Push(frameTimestamps, now);
        decodeDurations := Push(decodeDurations, duration);
        captureTimestamps := Push(captureTimestamps, capture);
      }
      stamps, durations, captures := stamps + [now], durations + [duration], captures + [capture];
    }

    /** Take the oldest frame's entries off the timing queues, whichever are there. */
    method PopTimings() returns (stamp: Option<Time>, duration: Option<Time>, capture: int)
      modifies this`frameTimestamps, this`decodeDurations, this`captureTimestamps
      ensures frameTimestamps == (if old(frameTimestamps) == [] then [] else old(frameTimestamps)[1..])
      ensures decodeDurations == (if old(decodeDurations) == [] then [] else old(decodeDurations)[1..])
      ensures captureTimestamps == (if old(captureTimestamps) == [] then [] else old(captureTimestamps)[1..])
      ensures stamp == if old(frameTimestamps) == [] then None else Some(old(frameTimestamps)[0])
      ensures duration == if old(decodeDurations) == [] then None else Some(old(decodeDurations)[0])
      ensures capture == if old(captureTimestamps) == [] then 0 else old(captureTimestamps)[0]
    {
      stamp, duration, capture := None, None, 0;
      if frameTimestamps != [] {
        stamp := Some(frameTimestamps[0]);
        frameTimestamps := frameTimestamps[1..];
      }
      if decodeDurations != [] {
        duration := Some(decodeDurations[0]);
        decodeDurations := decodeDurations[1..];
      }
      if captureTimestamps != [] {
        capture := captureTimestamps[0];
        captureTimestamps := captureTimestamps[1..];
      }
    }

    /** The timing queues lose their front entry, or nothing if timing is off. */
    method DropTimings() returns (stamp: Option<Time>, duration: Option<Time>, capture: int)
      requires frameBuffer != []
      modifies this`frameTimestamps, this`decodeDurations, this`captureTimestamps
      ensures old(Timed()) ==> InOrder(|frameBuffer| - 1)
      ensures !timingEnabled ==> stamp == None && duration == None && capture == 0 && Timings() == old(Timings())
      ensures old(Timed()) && timingEnabled ==>
                && |frameTimestamps| == |old(frameTimestamps)| - 1
                && (|stamps| == |durations| == |captures| ==>
                      IsDataOf(|stamps| - |old(frameTimestamps)|, stamp, duration, capture))
    {
      stamp, duration, capture := None, None, 0;
      if timingEnabled {
        if Timed() {
          PopKeepsTail(frameTimestamps, stamps);
          PopKeepsTail(decodeDurations, durations);
          PopKeepsTail(captureTimestamps, captures);
        }
        stamp, duration, capture := PopTimings();
      }
    }

    /** The queues are in order for a buffer of the given length. */
    ghost predicate InOrder(length: int)
      reads this
    {
      length <= |frameTimestamps| <= MAX_FRAME_BUFFER_SIZE && InStep()
    }

    /** The data that arrived with frame `k` */
    ghost predicate IsDataOf(k: int, stamp: Option<Time>, duration: Option<Time>, capture: int)
      reads this
      requires |stamps| == |durations| == |captures|
    {
      0 <= k < |stamps| && stamp == Some(stamps[k]) && duration == Some(durations[k]) && capture == captures[k]
    }

    /** The oldest frame leaves the buffer for the display. */
    method PickOldest() returns (duration: Option<Time>, capture: int)
      requires Valid() && frameBuffer != []
      modifies this
      ensures timingEnabled == old(timingEnabled) && renderRatio == old(renderRatio)
      ensures stamps == old(stamps) && durations == old(durations) && captures == old(captures)
                && arrived == old(arrived)
      ensures Valid()
      ensures fates == old(fates) + [Displayed] && displayed == old(displayed) + [|old(fates)|]
      ensures frameBuffer == old(frameBuffer)[1..] && frame == Some(|old(fates)|)
      ensures !timingEnabled ==> duration == None && capture == 0 && Timings() == old(Timings())
      ensures old(Timed()) ==> Timed()
      ensures old(Timed()) && timingEnabled ==>
                Stale() == old(Stale()) && IsDataOf(frame.value - Stale(), lastDisplayedDecodeTime, duration, capture)
    {
      hide Accounts, IsTail;
      AccountsLength();
      var stamp;
      stamp, duration, capture := DropTimings();
      TakeOldest();
      if stamp.Some? {
        lastDisplayedDecodeTime := stamp;
      }
    }

    /** The oldest frame is skipped. */
    method DropOldest()
      requires Valid() && frameBuffer != []
      modifies this
      ensures timingEnabled == old(timingEnabled) && renderRatio == old(renderRatio)
      ensures stamps == old(stamps) && durations == old(durations) && captures == old(captures)
                && arrived == old(arrived)
      ensures Valid()
      ensures fates == old(fates) + [BurstDropped] && displayed == old(displayed) && frame == old(frame)
      ensures frameBuffer == old(frameBuffer)[1..] && lastDisplayedDecodeTime == old(lastDisplayedDecodeTime)
      ensures !timingEnabled ==> Timings() == old(Timings())
      ensures old(Timed()) ==> Timed()
      ensures old(Timed()) && timingEnabled ==> Stale() == old(Stale())
    {
      hide Accounts, IsTail;
      var _, _, _ := DropTimings();
      SkipOldest();
    }

    /** `_pick_adaptive_frame`: skip down to the target size, then take the oldest. */
    method PickAdaptive() returns (duration: Option<Time>, capture: int)
      requires Valid() && frameBuffer != [] && 0 < renderRatio < 100
      modifies this
      ensures timingEnabled == old(timingEnabled) && renderRatio == old(renderRatio)
      ensures stamps == old(stamps) && durations == old(durations) && captures == old(captures)
                && arrived == old(arrived)
      ensures Valid()
      ensures var n := Skipped(renderRatio, |old(frameBuffer)|);
              && fates == old(fates) + Times(BurstDropped, n) + [Displayed]
              && displayed == old(displayed) + [|old(fates)| + n]
              && frameBuffer == old(frameBuffer)[n + 1..] && frame == Some(|old(fates)| + n)
      ensures |frameBuffer| <= TargetSize(renderRatio)
      ensures !timingEnabled ==> duration == None && capture == 0 && Timings() == old(Timings())
      ensures old(Timed()) ==> Timed()
      ensures old(Timed()) && timingEnabled ==>
                Stale() == old(Stale()) && IsDataOf(frame.value - Stale(), lastDisplayedDecodeTime, duration, capture)
    {
      var length := |frameBuffer|;
      var targetBufferSize := 3 * renderRatio;
      var framesToDrop := if length - targetBufferSize - 1 > 0 then length - targetBufferSize - 1 else 0;
      hide Valid, Timed, IsDataOf;
      for i := 0 to framesToDrop
        invariant Valid() && timingEnabled == old(timingEnabled) && renderRatio == old(renderRatio)
        invariant stamps == old(stamps) && durations == old(durations) && captures == old(captures)
                    && arrived == old(arrived)
        invariant fates == old(fates) + Times(BurstDropped, i) && displayed == old(displayed)
        invariant frameBuffer == old(frameBuffer)[i..]
        invariant !timingEnabled ==> Timings() == old(Timings())
        invariant old(Timed()) ==> Timed()
        invariant old(Timed()) && timingEnabled ==> Stale() == old(Stale())
      {
        DropOldest();
      }
      duration, capture := PickOldest();
    }

    /** `_pick_newest_frame`: show the newest, drop the rest, empty the timing queues. */
    method PickNewest() returns (duration: Option<Time>, capture: int)
      requires Valid() && frameBuffer != []
      modifies this
      ensures timingEnabled == old(timingEnabled) && renderRatio == old(renderRatio)
      ensures stamps == old(stamps) && durations == old(durations) && captures == old(captures)
                && arrived == old(arrived)
      ensures Valid()
      ensures var n := |old(frameBuffer)| - 1;
              && fates == old(fates) + Times(BurstDropped, n) + [Displayed]
              && displayed == old(displayed) + [|old(fates)| + n]
              && frameBuffer == [] && frame == Some(|old(fates)| + n)
      ensures timingEnabled ==> Timed() && Stale() == 0
      ensures !timingEnabled ==> duration == None && capture == 0 && Timings() == old(Timings())
      ensures old(Timed()) ==> Timed()
      ensures old(Timed()) && timingEnabled ==> IsDataOf(frame.value, lastDisplayedDecodeTime, duration, capture)
    {
      hide Accounts, IsTail, Times;
      AccountsLength();
      EmptyIsTail(stamps);
      EmptyIsTail(durations);
      EmptyIsTail(captures);
      duration, capture := TakeLastTimings();
      TakeNewest();
    }

    method TakeLastTimings() returns (duration: Option<Time>, capture: int)
      requires frameBuffer != []
      modifies this`frameTimestamps, this`decodeDurations, this`captureTimestamps, this`lastDisplayedDecodeTime
      ensures timingEnabled ==> frameTimestamps == [] && decodeDurations == [] && captureTimestamps == []
      ensures old(Timed()) ==> InOrder(0)
      ensures !timingEnabled ==> duration == None && capture == 0 && Timings() == old(Timings())
      ensures old(Timed()) && timingEnabled && |stamps| == |durations| == |captures| ==>
                IsDataOf(|stamps| - 1, lastDisplayedDecodeTime, duration, capture)
    {
      if Timed() {
        LastOfTail(frameTimestamps, stamps);
        LastOfTail(decodeDurations, durations);
        LastOfTail(captureTimestamps, captures);
      }
      hide IsTail;
      duration, capture := None, 0;
      if timingEnabled {
        if frameTimestamps != [] {
          lastDisplayedDecodeTime := Some(frameTimestamps[|frameTimestamps| - 1]);
          frameTimestamps := [];
        }
        if decodeDurations != [] {
          duration := Some(decodeDurations[|decodeDurations| - 1]);
          decodeDurations := [];
        }
        if captureTimestamps != [] {
          capture := captureTimestamps[|captureTimestamps| - 1];
          captureTimestamps := [];
        }
      }
    }

    /** A non-empty buffer gives up the frame that the render ratio asks for. */
    method PickFrame() returns (duration: Option<Time>, capture: int)
      requires Valid() && frameBuffer != []
      modifies this
      ensures Valid() && timingEnabled == old(timingEnabled) && renderRatio == old(renderRatio)
      ensures stamps == old(stamps) && durations == old(durations) && captures == old(captures)
                && arrived == old(arrived)
      ensures var n := Skipped(renderRatio, |old(frameBuffer)|);
              && fates == old(fates) + Times(BurstDropped, n) + [Displayed]
              && frameBuffer == old(frameBuffer)[n + 1..]
              && frame == Some(|old(fates)| + n) && displayed == old(displayed) + [|old(fates)| + n]
      ensures 0 < renderRatio < 100 ==> |frameBuffer| <= TargetSize(renderRatio)
      ensures !timingEnabled ==> duration == None && capture == 0 && Timings() == old(Timings())
      ensures old(Timed()) ==> Timed()
      ensures timingEnabled && renderRatio == 0 ==> Timed() && Stale() == 0
      ensures timingEnabled && renderRatio == 0 && old(Timed()) ==>
                IsDataOf(frame.value, lastDisplayedDecodeTime, duration, capture)
      ensures timingEnabled && renderRatio != 0 && old(Timed()) ==>
                Stale() == old(Stale()) && IsDataOf(frame.value - Stale(), lastDisplayedDecodeTime, duration, capture)
    {
      hide *;
      RatioInRange();
      SkippingNone(fates);
      SkippedCases(renderRatio, |frameBuffer|);
      assert frameBuffer[|frameBuffer| - 1 + 1..] == [];
      if renderRatio == 100 {
        duration, capture := PickOldest();
      } else if renderRatio == 0 {
        duration, capture := PickNewest();
      } else {
        duration, capture := PickAdaptive();
      }
    }

    /** `get_frame`: an empty buffer shows the same frame again. */
    method GetFrame() returns (result: Option<nat>, duration: Option<Time>, capture: int)
      requires Valid()
      modifies this
      ensures Valid() && result == frame && timingEnabled == old(timingEnabled) && renderRatio == old(renderRatio)
      ensures stamps == old(stamps) && durations == old(durations) && captures == old(captures)
                && arrived == old(arrived)
      ensures old(frameBuffer) == [] ==>
                && fates == old(fates) && displayed == old(displayed) && frame == old(frame) && frameBuffer == []
                && duration == None && capture == 0 && Timings() == old(Timings()) && Stale() == old(Stale())
      ensures old(frameBuffer) != [] ==>
                var n := Skipped(renderRatio, |old(frameBuffer)|);
                && fates == old(fates) + Times(BurstDropped, n) + [Displayed]
                && frameBuffer == old(frameBuffer)[n + 1..]
                && frame == Some(|old(fates)| + n) && displayed == old(displayed) + [|old(fates)| + n]
      ensures old(frameBuffer) != [] && 0 < renderRatio < 100 ==> |frameBuffer| <= TargetSize(renderRatio)
      ensures !timingEnabled ==> duration == None && capture == 0 && Timings() == old(Timings())
      ensures old(Timed()) ==> Timed()
      ensures old(frameBuffer) != [] && timingEnabled && renderRatio == 0 ==> Timed() && Stale() == 0
      ensures old(frameBuffer) != [] && timingEnabled && renderRatio == 0 && old(Timed()) ==>
                IsDataOf(frame.value, lastDisplayedDecodeTime, duration, capture)
      ensures old(frameBuffer) != [] && timingEnabled && renderRatio != 0 && old(Timed()) ==>
                Stale() == old(Stale()) && IsDataOf(frame.value - Stale(), lastDisplayedDecodeTime, duration, capture)
    {
      hide *;
      duration, capture := None, 0;
      if frameBuffer != [] {
        duration, capture := PickFrame();
      }
      result := frame;
    }

    /** A stream timeout or a restart forgets the frames, but not their timing entries. */
    method ClearFrames()
      requires Valid()
      modifies this`frame, this`frameBuffer, this`fates
      ensures Valid() && frame == None && frameBuffer == [] && displayed == old(displayed)
      ensures fates == old(fates) + Times(Cleared, |old(frameBuffer)|)
      ensures old(Timed()) ==> Timed() && Stale() == old(Stale()) + |old(frameBuffer)|
    {
      hide Accounted, Counted, ShownInOrder, IsTail, Times;
      ghost var leaving := Times(Cleared, |frameBuffer|);
      LeavingAccounted(fates, frameBuffer, arrived, leaving);
      LeavingCounted(fates, mark, renderedFrameCount, droppedBurstFrames, Cleared, |frameBuffer|);
      LeavingUnseen(fates, displayed, leaving);
      if frame != None || frameBuffer != [] {
        frame := None;
        frameBuffer := [];
      }
      fates := fates + leaving;
    }

    /** One frame leaves for the display. */
    ghost method Show()
      requires Accounted(fates, frameBuffer, arrived) && Counted(fates, mark, renderedFrameCount, droppedBurstFrames)
      requires ShownInOrder(fates, displayed) && frameBuffer != []
      modifies this`fates, this`displayed
      ensures fates == old(fates) + [Displayed] && displayed == old(displayed) + [|old(fates)|]
      ensures frameBuffer[0] == |old(fates)|
      ensures Accounted(fates, frameBuffer[1..], arrived)
      ensures Counted(fates, mark, renderedFrameCount + 1, droppedBurstFrames)
      ensures ShownInOrder(fates, displayed)
    {
      LeavingAccounted(fates, frameBuffer, arrived, []);
      LeavingAccounted(fates, frameBuffer, arrived, [Displayed]);
      LeavingCounted(fates, mark, renderedFrameCount, droppedBurstFrames, Displayed, 1);
      TimesOne(Displayed);
      LeavingShown(fates, displayed);
      assert fates + [] == fates;
      displayed := displayed + [|fates|];
      fates := fates + [Displayed];
    }

    /**
     * `_log_stats_if_needed`: once per interval the counters start again from zero, while frames
     * may be in the buffer.
     */
    method LogStatsIfNeeded(now: Time) returns (reset: bool)
      requires Valid()
      modifies this`decodedFrameCount, this`renderedFrameCount, this`droppedBurstFrames, this`lastLogTime, this`mark,
          this`carried
      ensures Valid() && reset == (now - old(lastLogTime) >= logInterval)
      ensures reset ==>
                && decodedFrameCount == renderedFrameCount == droppedBurstFrames == 0 && lastLogTime == now
                && mark == |fates| && carried == |frameBuffer|
      ensures !reset ==>
                && decodedFrameCount == old(decodedFrameCount) && renderedFrameCount == old(renderedFrameCount)
                && droppedBurstFrames == old(droppedBurstFrames) && lastLogTime == old(lastLogTime)
                && mark == old(mark) && carried == old(carried)
      ensures Timed() == old(Timed()) && Stale() == old(Stale())
    {
      hide Accounted, Counted, ShownInOrder, IsTail;
      AccountsLength();
      NothingCounted(fates);
      reset := now - lastLogTime >= logInterval;
      if reset {
        decodedFrameCount, renderedFrameCount, droppedBurstFrames := 0, 0, 0;
        lastLogTime := now;
        mark, carried := |fates|, |frameBuffer|;
      }
    }

    /**
     * Every frame that arrived is counted exactly once, and so is every frame of the interval since
     * the counters were last set to zero: those in the buffer at that moment and those decoded since.
     */
    lemma Conservation()
      requires Valid()
      ensures var all := multiset(fates);
              arrived == all[Displayed] + all[BurstDropped] + all[Evicted] + all[Cleared] + |frameBuffer|
      ensures mark <= |fates| && var since := multiset(fates[mark..]);
              carried + decodedFrameCount ==
              renderedFrameCount + droppedBurstFrames + since[Evicted] + since[Cleared] + |frameBuffer|
    {
      AccountsLength();
      EveryFateCounts(fates);
      EveryFateCounts(fates[mark..]);
    }

    /** Displayed frames are listed once each, in the order of arrival. */
    lemma DisplayOrder()
      requires Valid()
      ensures Ascending(displayed) && |displayed| == multiset(fates)[Displayed]
    {
      ShownAreCounted(fates, displayed);
    }
  }

  lemma NothingCounted(fates: seq<Fate>)
    ensures Counted(fates, |fates|, 0, 0)
  {
  }

  // ---------------------------------------------------------------- whole sessions

  datatype Happening =
    | Arrival(now: Time, duration: Time, capture: int)
    | Display
    | Timeout
    | Log(now: Time)

  /** What one happening does to the length of the buffer and to the number of stale timing entries. */
  function Next(ratio: nat, length: nat, stale: int, h: Happening): (nat, int) {
    match h
    case Arrival(_, _, _) =>
      if length >= MAX_FRAME_BUFFER_SIZE then (length, stale)
      else (length + 1, if length + stale == MAX_FRAME_BUFFER_SIZE then stale - 1 else stale)
    case Display =>
      if length == 0 then (0, stale) else (length - Skipped(ratio, length) - 1, if ratio == 0 then 0 else stale)
    case Timeout => (0, stale + length)
    case Log(_) => (length, stale)
  }

  /** The same for a whole session. */
  function Track(ratio: nat, happenings: seq<Happening>): (nat, int) {
    if happenings == [] then (0, 0)
    else
      var (length, stale) := Track(ratio, happenings[..|happenings| - 1]);
      Next(ratio, length, stale, happenings[|happenings| - 1])
  }

  lemma TrackStart(ratio: nat, happenings: seq<Happening>)
    ensures Track(ratio, happenings[..0]) == (0, 0)
  {
  }

  lemma TrackNext(ratio: nat, happenings: seq<Happening>, i: nat)
    requires i < |happenings|
    ensures var (length, stale) := Track(ratio, happenings[..i]);
            Track(ratio, happenings[..i + 1]) == Next(ratio, length, stale, happenings[i])
  {
    assert happenings[..i + 1][..i] == happenings[..i];
  }

  /** Without a timeout the queues stay aligned. */
  lemma {:induction false} AlignedWithoutTimeout(ratio: nat, happenings: seq<Happening>)
    requires Timeout !in happenings
    ensures Track(ratio, happenings).1 == 0 && Track(ratio, happenings).0 <= MAX_FRAME_BUFFER_SIZE
  {
    if happenings != [] {
      AlignedWithoutTimeout(ratio, happenings[..|happenings| - 1]);
      assert happenings[|happenings| - 1] in happenings;
    }
  }

  method Happen(r: Receiver, h: Happening, newFrame: nat)
    requires r.Valid() && newFrame == r.arrived
    modifies r
    ensures r.Valid() && r.timingEnabled == old(r.timingEnabled) && r.renderRatio == old(r.renderRatio)
    ensures r.arrived == old(r.arrived) + if h.Arrival? then 1 else 0
    ensures r.timingEnabled && old(r.Timed()) ==> r.Timed()
    ensures r.timingEnabled && old(r.Timed()) ==>
              (|r.frameBuffer|, r.Stale()) == Next(r.renderRatio, |old(r.frameBuffer)|, old(r.Stale()), h)
  {
    hide Receiver.Valid, Receiver.Timed, Receiver.IsDataOf, Push, Times, Skipped;
    match h {
      case Arrival(now, duration, capture) => r.UpdateFrame(newFrame, now, duration, capture);
      case Display => var _, _, _ := r.GetFrame();
      case Timeout => r.ClearFrames();
      case Log(now) => var _ := r.LogStatsIfNeeded(now);
    }
  }

  /**
   * A whole session of arrivals, displays, timeouts and log intervals in any order: every frame
   * is counted once, in total and for the interval since the counters were last set to zero;
   * displayed frames come in the order of arrival. With timing on, `Track` says exactly how far
   * the timing queues are off, so they are aligned if and only if that is zero.
   */
  method Play(ratio: nat, interval: Time, timing: bool, happenings: seq<Happening>) returns (r: Receiver)
    requires ratio <= 100
    ensures var all := multiset(r.fates);
            r.arrived == all[Displayed] + all[BurstDropped] + all[Evicted] + all[Cleared] + |r.frameBuffer|
    ensures r.mark <= |r.fates| && var since := multiset(r.fates[r.mark..]);
            r.carried + r.decodedFrameCount ==
            r.renderedFrameCount + r.droppedBurstFrames + since[Evicted] + since[Cleared] + |r.frameBuffer|
    ensures Ascending(r.displayed) && |r.displayed| == multiset(r.fates)[Displayed]
    ensures timing ==> r.Timed() && r.Stale() == Track(ratio, happenings).1
    ensures timing && Timeout !in happenings ==> r.Stale() == 0
  {
    hide *;
    r := new Receiver(ratio, interval);
    r.EnableTiming(timing);
    var count := 0;
    TrackStart(ratio, happenings);
    assert timing ==> r.frameBuffer == [];
    for i := 0 to |happenings|
      invariant fresh(r) && r.Valid() && r.timingEnabled == timing && r.renderRatio == ratio && count == r.arrived
      invariant timing ==> r.Timed() && (|r.frameBuffer|, r.Stale()) == Track(ratio, happenings[..i])
    {
      TrackNext(ratio, happenings, i);
      Happen(r, happenings[i], count);
      count := count + if happenings[i].Arrival? then 1 else 0;
    }
    assert happenings[..|happenings|] == happenings;
    if timing && Timeout !in happenings {
      AlignedWithoutTimeout(ratio, happenings);
    }
    r.Conservation();
    r.DisplayOrder();
  }

  /** As many frames are listed as displayed as have that fate. */
  lemma {:induction false} ShownAreCounted(fates: seq<Fate>, displayed: seq<nat>)
    requires ShownInOrder(fates, displayed)
    ensures |displayed| == multiset(fates)[Displayed]
  {
    if fates == [] {
      if displayed != [] {
        HasMember(displayed);
      }
    } else {
      var n := |fates| - 1;
      assert fates == fates[..n] + [fates[n]];
      assert multiset(fates) == multiset(fates[..n]) + multiset{fates[n]};
      if fates[n] == Displayed {
        LastShown(fates, displayed);
        ShownAreCounted(fates[..n], displayed[..|displayed| - 1]);
      } else {
        ShownAreCounted(fates[..n], displayed);
      }
    }
  }

  lemma HasMember(numbers: seq<nat>)
    requires numbers != []
    ensures numbers[0] in numbers
  {
  }

  lemma LastShown(fates: seq<Fate>, displayed: seq<nat>)
    requires ShownInOrder(fates, displayed) && fates != [] && fates[|fates| - 1] == Displayed
    ensures displayed != [] && ShownInOrder(fates[..|fates| - 1], displayed[..|displayed| - 1])
  {
    var n, m := |fates| - 1, |displayed| - 1;
    assert n in displayed;
    var k :| 0 <= k < |displayed| && displayed[k] == n;
    assert displayed[m] in displayed;
    assert k == m;
    forall i ensures i in displayed[..m] <==> 0 <= i < n && fates[..n][i] == Displayed {
      if i in displayed {
        var j :| 0 <= j < |displayed| && displayed[j] == i;
        assert j < m ==> displayed[..m][j] == i;
      }
    }
  }

  lemma {:induction false} EveryFateCounts(fates: seq<Fate>)
    ensures var m := multiset(fates); |fates| == m[Displayed] + m[BurstDropped] + m[Evicted] + m[Cleared]
  {
    if fates != [] {
      EveryFateCounts(fates[1..]);
      assert fates == [fates[0]] + fates[1..];
      var one := multiset{fates[0]};
      assert multiset(fates) == one + multiset(fates[1..]);
      assert one[Displayed] + one[BurstDropped] + one[Evicted] + one[Cleared] == 1 by {
        match fates[0] case Displayed => case BurstDropped => case Evicted => case Cleared =>
      }
    }
  }

  /** After a timeout the display time of a frame is measured from the arrival of an earlier one. */
  method TimeoutMixesUpTimings(first: Time, second: Time) returns (receiver: Receiver)
    ensures receiver.frame == Some(1) && receiver.stamps == [first, second]
    ensures receiver.lastDisplayedDecodeTime == Some(first)
  {
    hide Receiver.Valid, Receiver.Timed, Receiver.Timings, Push, Times;
    receiver := new Receiver(100, 10.0);
    receiver.EnableTiming(true);
    receiver.UpdateFrame(0, first, 0.0, 0);
    receiver.ClearFrames();
    receiver.UpdateFrame(1, second, 0.0, 0);
    var _, _, _ := receiver.GetFrame();
  }
}
