/**
 * Sending a command until it is acknowledged: the retry task, the ACK handler and `stop()`
 * share the dictionary of pending commands under one lock. Each event below is one critical
 * section or one unlocked action; events of any number of commands interleave freely.
 */
module ServerCommands {

  type Id = string

  /** Where a command's own thread of control is: `send_command`, then its retry task. */
  datatype Pc =
    | Registered
    | Checking(attempt: nat)
    | Sending(attempt: nat)
    | Expiring
    | Failing
    | Reporting
    | Ended

  /**
   * One call of `send_command`, and what an observer has seen of it: the results its callback
   * got, how often it was sent, how often after its entry was gone, and whether an error path
   * found the entry already gone.
   */
  datatype Task = Task(
    callback: bool,
    maxRetries: int,
    pc: Pc,
    fired: seq<bool>,
    sends: nat,
    late: nat,
    orphaned: bool)

  datatype State = State(pending: set<Id>, tasks: map<Id, Task>, shut: bool)

  const START := State({}, map[], false)

  datatype Event =
    | Register(id: Id, callback: bool, maxRetries: int)
    | SubmitOk(id: Id)
    | SubmitFails(id: Id)
    | Check(id: Id)
    | Transmit(id: Id)
    | TransmitRaises(id: Id)
    | Expire(id: Id)
    | ExpireRaises(id: Id)
    | CleanUp(id: Id)
    | Report(id: Id)
    | AckArrives(id: Id)
    | StopNotifies
    | Shutdown

  function Fire(t: Task, result: bool): Task {
    if t.callback then t.(fired := t.fired + [result]) else t
  }

  predicate At(s: State, id: Id, pc: Pc) {
    id in s.tasks && s.tasks[id].pc == pc
  }

  predicate SendingNow(s: State, id: Id) {
    id in s.tasks && s.tasks[id].pc.Sending?
  }

  predicate Enabled(s: State, ev: Event) {
    match ev
    case Register(id, _, _) => id !in s.tasks
    case SubmitOk(id) => At(s, id, Registered) && !s.shut
    case SubmitFails(id) => At(s, id, Registered) && s.shut
    case Check(id) => id in s.tasks && s.tasks[id].pc.Checking?
    case Transmit(id) => SendingNow(s, id)
    case TransmitRaises(id) => SendingNow(s, id)
    case Expire(id) => At(s, id, Expiring)
    case ExpireRaises(id) => At(s, id, Expiring) && id in s.pending && s.tasks[id].callback
    case CleanUp(id) => At(s, id, Failing)
    case Report(id) => At(s, id, Reporting)
    case AckArrives(_) => true
    case StopNotifies => true
    case Shutdown => true
  }

  /** `for attempt in range(max_retries)`: the next attempt, or the code after the loop. */
  function LoopHead(attempt: nat, maxRetries: int): Pc {
    if attempt < maxRetries then Checking(attempt) else Expiring
  }

  function Set(s: State, id: Id, t: Task): State {
    s.(tasks := s.tasks[id := t])
  }

  function Apply(s: State, ev: Event): State
    requires Enabled(s, ev)
  {
    match ev
    case Register(id, callback, maxRetries) =>
      Set(s, id, Task(callback, maxRetries, Registered, [], 0, 0, false)).(pending := s.pending + {id})
    case SubmitOk(id) => Set(s, id, s.tasks[id].(pc := LoopHead(0, s.tasks[id].maxRetries)))
    case SubmitFails(id) => Set(s, id, s.tasks[id].(pc := Failing))
    case Check(id) =>
      Set(s, id, s.tasks[id].(pc := if id in s.pending then Sending(s.tasks[id].pc.attempt) else Ended))
    case Transmit(id) =>
      var t := s.tasks[id];
      Set(s, id, t.(pc := LoopHead(t.pc.attempt + 1, t.maxRetries),
                    sends := t.sends + 1,
                    late := if id in s.pending then t.late else t.late + 1))
    case TransmitRaises(id) => Set(s, id, s.tasks[id].(pc := Failing))
    case Expire(id) =>
      var t := s.tasks[id].(pc := Ended);
      Set(s, id, if id in s.pending then Fire(t, false) else t).(pending := s.pending - {id})
    case ExpireRaises(id) =>
      Set(s, id, Fire(s.tasks[id], false).(pc := Failing)).(pending := s.pending - {id})
    case CleanUp(id) =>
      var t := s.tasks[id];
      Set(s, id, t.(pc := Reporting, orphaned := t.orphaned || id !in s.pending)).(pending := s.pending - {id})
    case Report(id) => Set(s, id, Fire(s.tasks[id], false).(pc := Ended))
    case AckArrives(id) =>
      if id in s.pending && id in s.tasks then
        Set(s, id, Fire(s.tasks[id], true)).(pending := s.pending - {id})
      else s
    case StopNotifies =>
      s.(tasks := map id | id in s.tasks :: if id in s.pending then Fire(s.tasks[id], false) else s.tasks[id],
         pending := {})
    case Shutdown => s.(shut := true)
  }

  predicate IsRun(events: seq<Event>)
    decreases events, 0
  {
    events != [] ==>
      && IsRun(events[..|events| - 1])
      && Enabled(After(events[..|events| - 1]), events[|events| - 1])
  }

  function After(events: seq<Event>): State
    requires IsRun(events)
    decreases events, 1
  {
    if events == [] then START else Apply(After(events[..|events| - 1]), events[|events| - 1])
  }

  // ---------------------------------------------------------------- what every event keeps

  /** The callback is due once; a result may be outstanding, and an error path may add one. */
  ghost predicate Balanced(s: State, id: Id)
    requires id in s.tasks
  {
    var t := s.tasks[id];
    t.callback ==>
      |t.fired| + (if id in s.pending then 1 else 0) + (if t.pc == Reporting then 1 else 0) ==
      1 + (if t.orphaned then 1 else 0)
  }

  ghost predicate PcOk(s: State, id: Id)
    requires id in s.tasks
  {
    var t := s.tasks[id];
    && (id in s.pending ==> !t.pc.Reporting? && !t.pc.Ended? && t.late == 0)
    && (t.orphaned ==> t.pc.Reporting? || t.pc.Ended?)
    && (!t.callback ==> t.fired == [])
    && match t.pc
       case Registered => t.sends == 0 && t.late == 0
       case Checking(n) => t.sends == n < t.maxRetries && t.late <= 1
       case Sending(n) => t.sends == n < t.maxRetries && t.late == 0
       case Expiring => t.sends == Attempts(t.maxRetries) && t.late <= 1
       case _ => (t.sends == 0 || t.sends <= t.maxRetries) && t.late <= 1
  }

  /** The length of `range(max_retries)` */
  function Attempts(maxRetries: int): nat {
    if maxRetries < 0 then 0 else maxRetries
  }

  ghost predicate TaskOk(s: State, id: Id)
    requires id in s.tasks
  {
    Balanced(s, id) && PcOk(s, id)
  }

  ghost predicate Inv(s: State) {
    && s.pending <= s.tasks.Keys
    && forall id | id in s.tasks :: TaskOk(s, id)
  }

  /** One event on one command changes no other command. */
  lemma OthersKept(s: State, ev: Event, id: Id)
    requires Inv(s) && Enabled(s, ev) && id in s.tasks && !ev.StopNotifies? && !ev.Shutdown? && ev.id != id
    ensures id in Apply(s, ev).tasks && Apply(s, ev).tasks[id] == s.tasks[id]
    ensures id in Apply(s, ev).pending <==> id in s.pending
  {
  }

  lemma OwnEventBalanced(s: State, ev: Event)
    requires Inv(s) && Enabled(s, ev) && !ev.StopNotifies? && !ev.Shutdown?
    requires ev.AckArrives? ==> ev.id in s.tasks
    ensures ev.id in Apply(s, ev).tasks && Balanced(Apply(s, ev), ev.id)
  {
    if ev.id in s.tasks {
      assert TaskOk(s, ev.id);
    }
  }

  lemma OwnEventPcOk(s: State, ev: Event)
    requires Inv(s) && Enabled(s, ev) && !ev.StopNotifies? && !ev.Shutdown?
    requires ev.AckArrives? ==> ev.id in s.tasks
    ensures ev.id in Apply(s, ev).tasks && PcOk(Apply(s, ev), ev.id)
  {
    hide Balanced;
    if ev.id in s.tasks {
      assert TaskOk(s, ev.id);
    }
  }

  lemma OwnEventKeeps(s: State, ev: Event)
    requires Inv(s) && Enabled(s, ev) && !ev.StopNotifies? && !ev.Shutdown?
    requires ev.AckArrives? ==> ev.id in s.tasks
    ensures ev.id in Apply(s, ev).tasks && TaskOk(Apply(s, ev), ev.id)
  {
    hide Apply, Enabled, Balanced, PcOk, Inv;
    OwnEventBalanced(s, ev);
    OwnEventPcOk(s, ev);
  }

  lemma StepKeeps(s: State, ev: Event)
    requires Inv(s) && Enabled(s, ev)
    ensures Inv(Apply(s, ev))
  {
    var s' := Apply(s, ev);
    if ev.StopNotifies? || ev.Shutdown? {
      forall id | id in s'.tasks ensures TaskOk(s', id) {
        assert TaskOk(s, id);
      }
    } else if ev.AckArrives? && ev.id !in s.tasks {
    } else {
      OwnEventKeeps(s, ev);
      hide TaskOk, Apply;
      assert s'.pending <= s'.tasks.Keys && s'.tasks.Keys == s.tasks.Keys + {ev.id} by {
        EventShape(s, ev);
      }
      forall id | id in s'.tasks && id != ev.id ensures TaskOk(s', id) {
        OthersKept(s, ev, id);
        SameTaskOk(s, s', id);
      }
    }
  }

  lemma EventShape(s: State, ev: Event)
    requires s.pending <= s.tasks.Keys && Enabled(s, ev) && !ev.StopNotifies? && !ev.Shutdown?
    requires ev.AckArrives? ==> ev.id in s.tasks
    ensures Apply(s, ev).pending <= Apply(s, ev).tasks.Keys == s.tasks.Keys + {ev.id}
  {
  }

  lemma SameTaskOk(s: State, s': State, id: Id)
    requires id in s.tasks && TaskOk(s, id)
    requires id in s'.tasks && s'.tasks[id] == s.tasks[id] && (id in s'.pending <==> id in s.pending)
    ensures TaskOk(s', id)
  {
  }

  lemma {:induction false} AlwaysInv(events: seq<Event>)
    requires IsRun(events)
    ensures Inv(After(events))
  {
    if events != [] {
      AlwaysInv(events[..|events| - 1]);
      StepKeeps(After(events[..|events| - 1]), events[|events| - 1]);
    }
  }

  // ---------------------------------------------------------------- the callback

  /**
   * However retry task, ACKs and `stop()` interleave: when a command's task has ended its
   * callback has been called exactly once, or exactly twice if an error path found the entry
   * gone. A command without a callback calls nothing.
   */
  lemma CallbackCount(events: seq<Event>, id: Id)
    requires IsRun(events) && id in After(events).tasks
    ensures var t := After(events).tasks[id];
            && (t.callback && t.pc == Ended ==> |t.fired| == if t.orphaned then 2 else 1)
            && (t.callback && !t.orphaned ==> |t.fired| <= 1)
            && (!t.callback ==> t.fired == [])
  {
    AlwaysInv(events);
    assert TaskOk(After(events), id);
  }

  /** The failing guard: the error path pops the entry of `id` although it is gone already. */
  predicate PopsNothing(events: seq<Event>, k: nat, id: Id)
    requires IsRun(events)
  {
    k < |events| && events[k] == CleanUp(id) && IsRun(events[..k]) && id !in After(events[..k]).pending
  }

  lemma {:induction false} PrefixIsRun(events: seq<Event>, k: nat)
    requires IsRun(events) && k <= |events|
    ensures IsRun(events[..k])
  {
    if k < |events| {
      PrefixIsRun(events[..|events| - 1], k);
      assert events[..|events| - 1][..k] == events[..k];
    } else {
      assert events[..k] == events;
    }
  }

  lemma OrphanedByEvent(s: State, ev: Event, id: Id)
    requires Inv(s) && Enabled(s, ev)
    ensures id in Apply(s, ev).tasks ==>
              (Apply(s, ev).tasks[id].orphaned <==>
               (id in s.tasks && s.tasks[id].orphaned) || (ev == CleanUp(id) && id !in s.pending))
    ensures id in s.tasks ==> id in Apply(s, ev).tasks
  {
    match ev case _ =>
  }

  lemma {:induction false} WhenOrphaned(events: seq<Event>, id: Id)
    requires IsRun(events) && id in After(events).tasks
    ensures After(events).tasks[id].orphaned <==> exists k :: PopsNothing(events, k, id)
  {
    if events != [] {
      var before := events[..|events| - 1];
      var last := events[|events| - 1];
      AlwaysInv(before);
      OrphanedByEvent(After(before), last, id);
      var n := |events| - 1;
      PrefixIsRun(events, n);
      assert PopsNothing(events, n, id) <==> last == CleanUp(id) && id !in After(before).pending;
      forall k: nat | k < n ensures PopsNothing(before, k, id) <==> PopsNothing(events, k, id) {
        assert before[..k] == events[..k];
      }
      if id in After(before).tasks {
        WhenOrphaned(before, id);
      } else {
        assert !After(events).tasks[id].orphaned;
        forall k: nat | PopsNothing(events, k, id) ensures false {
          ErrorComesLater(events, k, id);
        }
      }
    }
  }

  /** A command's error path runs only after the command was sent off. */
  lemma ErrorComesLater(events: seq<Event>, k: nat, id: Id)
    requires IsRun(events) && k < |events| && events[k] == CleanUp(id)
    ensures id in After(events[..|events| - 1]).tasks
  {
    hide Apply;
    var before := events[..|events| - 1];
    PrefixIsRun(events, k + 1);
    assert events[..k + 1][..k] == events[..k] == before[..k];
    PrefixIsRun(before, k);
    TasksStay(before, k, id);
  }

  lemma {:induction false} TasksStay(events: seq<Event>, k: nat, id: Id)
    requires IsRun(events) && k <= |events| && IsRun(events[..k]) && id in After(events[..k]).tasks
    ensures id in After(events).tasks
  {
    if k < |events| {
      var before := events[..|events| - 1];
      assert before[..k] == events[..k];
      TasksStay(before, k, id);
      AlwaysInv(before);
      OrphanedByEvent(After(before), events[|events| - 1], id);
    } else {
      assert events[..k] == events;
    }
  }

  /** The callback gets a second result if and only if an error path finds the entry gone. */
  lemma FiresTwiceIff(events: seq<Event>, id: Id)
    requires IsRun(events) && At(After(events), id, Ended) && After(events).tasks[id].callback
    ensures |After(events).tasks[id].fired| == 2 <==> exists k :: PopsNothing(events, k, id)
    ensures |After(events).tasks[id].fired| == 1 <==> !exists k :: PopsNothing(events, k, id)
  {
    CallbackCount(events, id);
    WhenOrphaned(events, id);
  }

  predicate Raises(ev: Event, id: Id) {
    ev == TransmitRaises(id) || ev == ExpireRaises(id) || ev == SubmitFails(id)
  }

  lemma FailingNeedsError(s: State, ev: Event, id: Id)
    requires Enabled(s, ev) && id in Apply(s, ev).tasks && Apply(s, ev).tasks[id].pc.Failing?
    ensures Raises(ev, id) || At(s, id, Failing)
  {
    match ev case _ =>
  }

  lemma {:induction false} NoErrorNoFailing(events: seq<Event>, id: Id)
    requires IsRun(events) && forall ev | ev in events :: !Raises(ev, id)
    ensures !At(After(events), id, Failing)
  {
    if events != [] {
      var before := events[..|events| - 1];
      NoErrorNoFailing(before, id);
      if At(After(events), id, Failing) {
        FailingNeedsError(After(before), events[|events| - 1], id);
      }
    }
  }

  /** Without an exception in the task, and with a successful submit, never twice. */
  lemma ExactlyOnce(events: seq<Event>, id: Id)
    requires IsRun(events) && id in After(events).tasks && After(events).tasks[id].callback
    requires forall ev | ev in events :: !Raises(ev, id)
    ensures |After(events).tasks[id].fired| <= 1
    ensures After(events).tasks[id].pc == Ended ==> |After(events).tasks[id].fired| == 1
  {
    CallbackCount(events, id);
    WhenOrphaned(events, id);
    forall k: nat | PopsNothing(events, k, id) ensures false {
      PrefixIsRun(events, k + 1);
      assert events[..k + 1][..k] == events[..k];
      NoErrorNoFailing(events[..k], id);
    }
  }

  // ---------------------------------------------------------------- two different results

  /** The acknowledgement arrives while the command is pending. */
  predicate TakesAck(events: seq<Event>, k: nat, id: Id)
    requires IsRun(events)
  {
    k < |events| && events[k] == AckArrives(id) && IsRun(events[..k]) && id in After(events[..k]).pending
  }

  lemma YesByEvent(s: State, ev: Event, id: Id)
    requires Inv(s) && Enabled(s, ev)
    ensures id in Apply(s, ev).tasks ==>
              (SaysYes(Apply(s, ev).tasks[id]) <==>
               id in s.tasks && (SaysYes(s.tasks[id])
                   || (ev == AckArrives(id) && id in s.pending && s.tasks[id].callback)))
  {
    match ev case _ =>
  }

  lemma {:induction false} YesIff(events: seq<Event>, id: Id)
    requires IsRun(events) && id in After(events).tasks && After(events).tasks[id].callback
    ensures SaysYes(After(events).tasks[id]) <==> exists k :: TakesAck(events, k, id)
  {
    if events != [] {
      var n := |events| - 1;
      var before, last := events[..n], events[n];
      AlwaysInv(before);
      YesByEvent(After(before), last, id);
      if id in After(before).tasks {
        CallbackKept(After(before), last, id);
      }
      PrefixIsRun(events, n);
      assert TakesAck(events, n, id) <==> last == AckArrives(id) && id in After(before).pending;
      forall k: nat | k < n ensures TakesAck(before, k, id) <==> TakesAck(events, k, id) {
        assert before[..k] == events[..k];
      }
      if id in After(before).tasks {
        YesIff(before, id);
      } else {
        forall k: nat ensures !TakesAck(events, k, id) {
          NoAckBefore(events, k, id);
        }
      }
    }
  }

  lemma CallbackKept(s: State, ev: Event, id: Id)
    requires Inv(s) && Enabled(s, ev) && id in s.tasks
    ensures id in Apply(s, ev).tasks && Apply(s, ev).tasks[id].callback == s.tasks[id].callback
  {
    match ev case _ =>
  }

  lemma NoAckBefore(events: seq<Event>, k: nat, id: Id)
    requires events != [] && IsRun(events) && id !in After(events[..|events| - 1]).tasks
    ensures !TakesAck(events, k, id)
  {
    hide Apply, TakesAck, After, IsRun;
    if TakesAck(events, k, id) {
      AckComesLater(events, k, id);
    }
  }

  lemma AckComesLater(events: seq<Event>, k: nat, id: Id)
    requires IsRun(events) && TakesAck(events, k, id)
    ensures id in After(events[..|events| - 1]).tasks
  {
    hide Apply;
    var before := events[..|events| - 1];
    assert events[..k] == before[..k];
    AlwaysInv(events[..k]);
    PrefixIsRun(before, k);
    TasksStay(before, k, id);
  }

  /** After the error path has run to its end the last result is a failure. */
  ghost predicate EndsInFailure(s: State, id: Id) {
    At(s, id, Ended) && s.tasks[id].orphaned && s.tasks[id].callback ==>
      s.tasks[id].fired != [] && !s.tasks[id].fired[|s.tasks[id].fired| - 1]
  }

  lemma EventKeepsFailure(s: State, ev: Event, id: Id)
    requires Inv(s) && Enabled(s, ev) && EndsInFailure(s, id)
    ensures EndsInFailure(Apply(s, ev), id)
  {
    if id in s.tasks {
      assert TaskOk(s, id);
    }
    match ev case _ =>
  }

  lemma {:induction false} LastIsFailure(events: seq<Event>, id: Id)
    requires IsRun(events)
    ensures EndsInFailure(After(events), id)
  {
    if events != [] {
      LastIsFailure(events[..|events| - 1], id);
      AlwaysInv(events[..|events| - 1]);
      EventKeepsFailure(After(events[..|events| - 1]), events[|events| - 1], id);
    }
  }

  /**
   * A callback is told both success and failure if and only if the acknowledgement arrived in
   * time and an error path finds the entry gone afterwards. Then success comes first.
   */
  lemma BothResultsIff(events: seq<Event>, id: Id)
    requires IsRun(events) && At(After(events), id, Ended) && After(events).tasks[id].callback
    ensures After(events).tasks[id].fired == [true, false] <==>
              (exists k :: TakesAck(events, k, id)) && (exists k :: PopsNothing(events, k, id))
    ensures After(events).tasks[id].fired == [false, false] <==>
              !(exists k :: TakesAck(events, k, id)) && (exists k :: PopsNothing(events, k, id))
  {
    YesIff(events, id);
    FiresTwiceIff(events, id);
    LastIsFailure(events, id);
    WhenOrphaned(events, id);
    hide After, IsRun, PopsNothing, TakesAck;
    var fired := After(events).tasks[id].fired;
    if |fired| == 2 {
      assert fired == [fired[0], fired[1]] && !fired[1];
      assert fired[0] <==> true in fired;
    }
  }

  // ---------------------------------------------------------------- a run with two results

  /** The state in which one command "c" is all there is. */
  function Only(pc: Pc, pending: bool, fired: seq<bool>, orphaned: bool, shut: bool): State {
    State(if pending then {"c"} else {}, map["c" := Task(true, 10, pc, fired, 0, 0, orphaned)], shut)
  }

  lemma Extended(events: seq<Event>, s: State, ev: Event)
    requires IsRun(events) && After(events) == s && Enabled(s, ev)
    ensures IsRun(events + [ev]) && After(events + [ev]) == Apply(s, ev)
  {
    assert (events + [ev])[..|events|] == events;
  }

  lemma FirstEvent() returns (events: seq<Event>)
    ensures events == [Register("c", true, 10)]
    ensures IsRun(events) && After(events) == Only(Registered, true, [], false, false)
  {
    events := [Register("c", true, 10)];
    assert events[..0] == [];
    assert After(events) == Apply(START, events[0]);
  }

  /** `stop()` runs while `send_command` is between its registration and its submission: failure is reported twice. */
  lemma StopDuringSubmission() returns (events: seq<Event>)
    ensures IsRun(events) && After(events) == Only(Ended, false, [false, false], true, true)
    ensures forall id :: AckArrives(id) !in events
  {
    hide IsRun, After;
    var e0 := FirstEvent();
    Extended(e0, Only(Registered, true, [], false, false), StopNotifies);
    StopTells();
    var e1 := e0 + [StopNotifies];
    Extended(e1, Only(Registered, false, [false], false, false), Shutdown);
    var e2 := e1 + [Shutdown];
    Extended(e2, Only(Registered, false, [false], false, true), SubmitFails("c"));
    assert Apply(Only(Registered, false, [false], false, true), SubmitFails("c")) ==
        Only(Failing, false, [false], false, true);
    var e3 := e2 + [SubmitFails("c")];
    Extended(e3, Only(Failing, false, [false], false, true), CleanUp("c"));
    assert Apply(Only(Failing, false, [false], false, true), CleanUp("c")) ==
        Only(Reporting, false, [false], true, true);
    var e4 := e3 + [CleanUp("c")];
    Extended(e4, Only(Reporting, false, [false], true, true), Report("c"));
    ReportTells();
    events := e4 + [Report("c")];
  }

  lemma StopTells()
    ensures Apply(Only(Registered, true, [], false, false), StopNotifies) ==
              Only(Registered, false, [false], false, false)
  {
    var none: seq<bool> := [];
    assert none + [false] == [false];
  }

  lemma ReportTells()
    ensures Apply(Only(Reporting, false, [false], true, true), Report("c")) ==
              Only(Ended, false, [false, false], true, true)
  {
    assert [false] + [false] == [false, false];
  }

  // ---------------------------------------------------------------- transmissions

  /** At most `max_retries` packets, and at most one of them after the entry was removed. */
  lemma SendsAreBounded(events: seq<Event>, id: Id)
    requires IsRun(events) && id in After(events).tasks
    ensures var t := After(events).tasks[id];
            && t.sends <= (if t.maxRetries > 0 then t.maxRetries else 0)
            && t.late <= 1
  {
    AlwaysInv(events);
    assert TaskOk(After(events), id);
  }

  /** The task gives up only after every attempt was sent, in every run. */
  lemma GivesUpAfterAllAttempts(events: seq<Event>, id: Id)
    requires IsRun(events) && At(After(events), id, Expiring)
    ensures var t := After(events).tasks[id];
            t.sends == if t.maxRetries < 0 then 0 else t.maxRetries
  {
    AlwaysInv(events);
    assert TaskOk(After(events), id);
  }

  /** Something raises, the entry is taken, or the pool is shut down. */
  predicate Disturbs(ev: Event, id: Id) {
    ev in {SubmitFails(id), TransmitRaises(id), ExpireRaises(id), AckArrives(id), StopNotifies}
  }

  /** As long as nothing disturbs a command, its entry stays until the end, and then failure is told once. */
  predicate Undisturbed(s: State, id: Id) {
    id in s.tasks ==>
      var t := s.tasks[id];
      && t.pc != Failing && t.pc != Reporting
      && (id in s.pending <==> t.pc != Ended)
      && t.fired == (if t.callback && t.pc == Ended then [false] else [])
      && (t.pc == Ended ==> t.sends == Attempts(t.maxRetries))
  }

  lemma UndisturbedStep(s: State, ev: Event, id: Id)
    requires Inv(s) && Enabled(s, ev) && Undisturbed(s, id) && !Disturbs(ev, id)
    ensures Undisturbed(Apply(s, ev), id)
  {
    if id in s.tasks {
      assert TaskOk(s, id);
      if ev == Shutdown {
      } else if ev.id != id {
        OthersKept(s, ev, id);
      } else {
        match ev case _ =>
      }
    } else if id in Apply(s, ev).tasks {
      FirstEventOf(s, ev, id);
    }
  }

  lemma FirstEventOf(s: State, ev: Event, id: Id)
    requires Enabled(s, ev) && id !in s.tasks && id in Apply(s, ev).tasks
    ensures ev.Register? && ev.id == id
  {
    match ev case _ =>
  }

  lemma {:induction false} AlwaysUndisturbed(events: seq<Event>, id: Id)
    requires IsRun(events) && forall k | 0 <= k < |events| :: !Disturbs(events[k], id)
    ensures Undisturbed(After(events), id)
  {
    if events != [] {
      var n := |events| - 1;
      AlwaysUndisturbed(events[..n], id);
      AlwaysInv(events[..n]);
      UndisturbedStep(After(events[..n]), events[n], id);
    }
  }

  /**
   * Persistence: a task that has ended has sent its command `max_retries` times and told failure
   * once, unless something raised, the pool was shut down, or the entry was taken by an
   * acknowledgement or by `stop()`.
   */
  lemma SendsEveryAttempt(events: seq<Event>, id: Id)
    requires IsRun(events) && At(After(events), id, Ended)
    ensures var t := After(events).tasks[id];
            || (exists k :: 0 <= k < |events| && Disturbs(events[k], id))
            || (t.sends == (if t.maxRetries < 0 then 0 else t.maxRetries)
                && t.fired == if t.callback then [false] else [])
  {
    if forall k | 0 <= k < |events| :: !Disturbs(events[k], id) {
      AlwaysUndisturbed(events, id);
    }
  }

  /** How many of its own events a command can still take part in. */
  function StepsLeft(t: Task): nat {
    var n := if t.maxRetries > 0 then t.maxRetries else 0;
    match t.pc
    case Registered => 2 * n + 4
    case Checking(k) => 2 * (if n > k then n - k else 0) + 3
    case Sending(k) => 2 * (if n > k then n - k else 0) + 2
    case Expiring => 3
    case Failing => 2
    case Reporting => 1
    case Ended => 0
  }

  predicate OwnEvent(ev: Event, id: Id) {
    match ev
    case Register(_, _, _) => false
    case AckArrives(_) => false
    case StopNotifies => false
    case Shutdown => false
    case _ => ev.id == id
  }

  /** No other event sets a task back, each of its own brings it nearer to its end, and it is never stuck. */
  lemma TasksEnd(s: State, ev: Event, id: Id)
    requires Inv(s) && Enabled(s, ev) && id in s.tasks
    ensures id in Apply(s, ev).tasks
    ensures OwnEvent(ev, id) ==> StepsLeft(Apply(s, ev).tasks[id]) < StepsLeft(s.tasks[id])
    ensures !OwnEvent(ev, id) ==> StepsLeft(Apply(s, ev).tasks[id]) == StepsLeft(s.tasks[id])
    ensures s.tasks[id].pc != Ended ==> exists own :: OwnEvent(own, id) && Enabled(s, own)
  {
    if s.tasks[id].pc != Ended {
      NeverStuck(s, id);
    }
    if OwnEvent(ev, id) {
      assert TaskOk(s, id);
      OwnStepShortens(s, ev);
    } else {
      OthersDoNotTouch(s, ev, id);
    }
  }

  lemma OwnStepShortens(s: State, ev: Event)
    requires Enabled(s, ev) && !ev.StopNotifies? && !ev.Shutdown? && OwnEvent(ev, ev.id) && ev.id in s.tasks
               && TaskOk(s, ev.id)
    ensures ev.id in Apply(s, ev).tasks
    ensures StepsLeft(Apply(s, ev).tasks[ev.id]) < StepsLeft(s.tasks[ev.id])
  {
    match ev case _ =>
  }

  lemma OthersDoNotTouch(s: State, ev: Event, id: Id)
    requires Enabled(s, ev) && id in s.tasks && !OwnEvent(ev, id)
    ensures id in Apply(s, ev).tasks
    ensures Apply(s, ev).tasks[id].pc == s.tasks[id].pc && Apply(s, ev).tasks[id].maxRetries == s.tasks[id].maxRetries
  {
    match ev case _ =>
  }

  lemma NeverStuck(s: State, id: Id)
    requires id in s.tasks && s.tasks[id].pc != Ended
    ensures exists own :: OwnEvent(own, id) && Enabled(s, own)
  {
    var own :=
      match s.tasks[id].pc
      case Registered => if s.shut then SubmitFails(id) else SubmitOk(id)
      case Checking(_) => Check(id)
      case Sending(_) => Transmit(id)
      case Expiring => Expire(id)
      case Failing => CleanUp(id)
      case _ => Report(id);
    assert OwnEvent(own, id) && Enabled(s, own);
  }

  // ---------------------------------------------------------------- results

  predicate SaysYes(t: Task) {
    true in t.fired
  }

  lemma YesNeedsAck(s: State, ev: Event, id: Id)
    requires Enabled(s, ev) && id in Apply(s, ev).tasks && SaysYes(Apply(s, ev).tasks[id])
    ensures ev == AckArrives(id) || (id in s.tasks && SaysYes(s.tasks[id]))
  {
    match ev case _ =>
  }

  /** `callback(True)` is called only for a command whose acknowledgement arrived. */
  lemma {:induction false} SuccessMeansAck(events: seq<Event>, id: Id)
    requires IsRun(events) && id in After(events).tasks && SaysYes(After(events).tasks[id])
    ensures AckArrives(id) in events
  {
    if events != [] {
      var before := events[..|events| - 1];
      YesNeedsAck(After(before), events[|events| - 1], id);
      if events[|events| - 1] != AckArrives(id) {
        SuccessMeansAck(before, id);
      }
    }
  }
}
