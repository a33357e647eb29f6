/**
 * The server object: the dictionary of pending commands, changed in place by one critical
 * section at a time. `machine` records which run of ServerCommands the calls add up to.
 */
module ServerObject {
  import opened ServerCommands

  /** What the callback of `id` has been told, in order. */
  function Results(calls: seq<(Id, bool)>, id: Id): seq<bool> {
    if calls == [] then []
    else Results(calls[..|calls| - 1], id) + if calls[|calls| - 1].0 == id then [calls[|calls| - 1].1] else []
  }

  lemma OneMoreResult(calls: seq<(Id, bool)>, id: Id, result: bool)
    ensures Results(calls + [(id, result)], id) == Results(calls, id) + [result]
    ensures forall other | other != id :: Results(calls + [(id, result)], other) == Results(calls, other)
  {
    assert (calls + [(id, result)])[..|calls|] == calls;
  }

  /** `events` lead from one state to another. */
  ghost predicate Leads(s: State, events: seq<Event>, s': State)
    decreases |events|
  {
    if events == [] then s' == s
    else Enabled(s, events[0]) && Leads(Apply(s, events[0]), events[1..], s')
  }

  lemma {:induction false} LeadsOn(s: State, events: seq<Event>, m: State, more: seq<Event>, s': State)
    requires Leads(s, events, m) && Leads(m, more, s')
    ensures Leads(s, events + more, s')
    decreases |events|
  {
    if events == [] {
      assert events + more == more;
    } else {
      LeadsOn(Apply(s, events[0]), events[1..], m, more, s');
      assert (events + more)[1..] == events[1..] + more;
    }
  }

  lemma LeadsOneOn(s: State, events: seq<Event>, m: State, ev: Event)
    requires Leads(s, events, m) && Enabled(m, ev)
    ensures Leads(s, events + [ev], Apply(m, ev))
  {
    assert Leads(m, [ev], Apply(m, ev));
    LeadsOn(s, events, m, [ev], Apply(m, ev));
  }

  /** What the object does from a reachable state on is a run of the machine again. */
  lemma {:induction false} LeadsOnARun(events: seq<Event>, more: seq<Event>, s': State)
    requires IsRun(events) && Leads(After(events), more, s')
    ensures IsRun(events + more) && After(events + more) == s'
    decreases |more|
  {
    if more == [] {
      assert events + more == events;
    } else {
      Extended(events, After(events), more[0]);
      LeadsOnARun(events + [more[0]], more[1..], s');
      assert events + [more[0]] + more[1..] == events + more;
    }
  }

  /**
   * The fields of the server: the pending commands (the value says whether there is a callback),
   * what the retry task of each command captured of it, the calls of callbacks so far, the
   * packets handed to the transmitter, and whether the thread pool is shut down.
   */
  datatype Fields = Fields(
    pending: map<Id, bool>,
    captured: map<Id, bool>,
    calls: seq<(Id, bool)>,
    packets: seq<Id>,
    poolShut: bool)

  ghost predicate TaskMatches(f: Fields, s: State, id: Id) {
    && (id in f.pending <==> id in s.pending)
    && (id in f.captured <==> id in s.tasks)
    && (id in f.pending ==> id in f.captured && f.pending[id] == f.captured[id])
    && (id in s.tasks ==>
          && f.captured[id] == s.tasks[id].callback
          && Results(f.calls, id) == s.tasks[id].fired
          && multiset(f.packets)[id] == s.tasks[id].sends)
    && (id !in s.tasks ==> Results(f.calls, id) == [] && id !in f.packets)
  }

  ghost predicate Matches(f: Fields, s: State) {
    f.poolShut == s.shut && forall id :: TaskMatches(f, s, id)
  }

  /** One callback call, if there is a callback. */
  function Told(f: Fields, id: Id, result: bool): Fields {
    if id in f.captured && f.captured[id] then f.(calls := f.calls + [(id, result)]) else f
  }

  /** What an event on one command does to the fields. */
  function FieldsAfter(f: Fields, ev: Event): Fields
    requires ev != StopNotifies
  {
    match ev
    case Register(id, callback, _) => f.(pending := f.pending[id := callback], captured := f.captured[id := callback])
    case Transmit(id) => f.(packets := f.packets + [id])
    case Expire(id) => (if id in f.pending then Told(f, id, false) else f).(pending := f.pending - {id})
    case ExpireRaises(id) => Told(f, id, false).(pending := f.pending - {id})
    case CleanUp(id) => f.(pending := f.pending - {id})
    case Report(id) => Told(f, id, false)
    case AckArrives(id) => (if id in f.pending then Told(f, id, true) else f).(pending := f.pending - {id})
    case Shutdown => f.(poolShut := true)
    case _ => f
  }

  predicate SameSlot(f: Fields, g: Fields, id: Id) {
    && (id in f.pending <==> id in g.pending) && (id in f.pending ==> f.pending[id] == g.pending[id])
    && (id in f.captured <==> id in g.captured) && (id in f.captured ==> f.captured[id] == g.captured[id])
    && Results(f.calls, id) == Results(g.calls, id)
    && multiset(f.packets)[id] == multiset(g.packets)[id]
  }

  lemma ToldOther(f: Fields, teller: Id, result: bool, id: Id)
    requires teller != id
    ensures Results(Told(f, teller, result).calls, id) == Results(f.calls, id)
    ensures Told(f, teller, result) == f.(calls := Told(f, teller, result).calls)
  {
    OneMoreResult(f.calls, teller, result);
  }

  lemma OtherSlots(f: Fields, ev: Event, id: Id)
    requires ev != StopNotifies && (ev == Shutdown || ev.id != id)
    ensures SameSlot(f, FieldsAfter(f, ev), id)
  {
    hide Results, Told;
    if ev != Shutdown {
      ToldOther(f, ev.id, true, id);
      ToldOther(f, ev.id, false, id);
    }
    var g := FieldsAfter(f, ev);
    assert g.captured == f.captured || (ev.Register? && g.captured == f.captured[ev.id := ev.callback]);
    assert g.pending == f.pending || (ev.Register? && g.pending == f.pending[ev.id := ev.callback])
        || (ev != Shutdown && g.pending == f.pending - {ev.id});
    assert g.packets == f.packets || (ev.Transmit? && g.packets == f.packets + [ev.id]);
    assert Results(g.calls, id) == Results(f.calls, id);
    hide FieldsAfter;
  }

  lemma OtherTasks(s: State, ev: Event, id: Id)
    requires Enabled(s, ev) && ev != StopNotifies && (ev == Shutdown || ev.id != id)
    ensures id in s.tasks <==> id in Apply(s, ev).tasks
    ensures id in s.tasks ==> Apply(s, ev).tasks[id] == s.tasks[id]
    ensures id in s.pending <==> id in Apply(s, ev).pending
  {
    match ev case _ =>
  }

  lemma OthersMatch(f: Fields, s: State, ev: Event, id: Id)
    requires Enabled(s, ev) && TaskMatches(f, s, id)
    requires ev != StopNotifies && (ev == Shutdown || ev.id != id)
    ensures TaskMatches(FieldsAfter(f, ev), Apply(s, ev), id)
  {
    hide FieldsAfter, Apply, Enabled, Results;
    OtherSlots(f, ev, id);
    OtherTasks(s, ev, id);
    var g := FieldsAfter(f, ev);
    assert id in f.packets <==> multiset(f.packets)[id] > 0;
    assert id in g.packets <==> multiset(g.packets)[id] > 0;
  }

  lemma OwnMatches(f: Fields, s: State, ev: Event)
    requires s.pending <= s.tasks.Keys && Enabled(s, ev) && ev != StopNotifies && ev != Shutdown
               && TaskMatches(f, s, ev.id)
    ensures TaskMatches(FieldsAfter(f, ev), Apply(s, ev), ev.id)
  {
    hide Results;
    OneMoreResult(f.calls, ev.id, true);
    OneMoreResult(f.calls, ev.id, false);
    match ev case _ =>
  }

  lemma StillMatches(f: Fields, s: State, ev: Event)
    requires Inv(s) && Enabled(s, ev) && Matches(f, s) && ev != StopNotifies
    ensures Matches(FieldsAfter(f, ev), Apply(s, ev))
  {
    forall id ensures TaskMatches(FieldsAfter(f, ev), Apply(s, ev), id) {
      if ev != Shutdown && ev.id == id {
        OwnMatches(f, s, ev);
      } else {
        OthersMatch(f, s, ev, id);
      }
    }
    assert FieldsAfter(f, ev).poolShut == Apply(s, ev).shut by {
      SamePool(s, f, ev);
    }
  }

  lemma SamePool(s: State, f: Fields, ev: Event)
    requires Enabled(s, ev) && f.poolShut == s.shut && ev != StopNotifies
    ensures FieldsAfter(f, ev).poolShut == Apply(s, ev).shut
  {
    match ev case _ =>
  }

  /** Neither a transmission nor the callback raises. */
  predicate NothingRaises(trace: seq<Event>, id: Id) {
    TransmitRaises(id) !in trace && ExpireRaises(id) !in trace
  }

  /** Nothing disturbs the command on the way, so it gives up only after all its attempts. */
  lemma {:induction false} LeadsUndisturbed(s: State, trace: seq<Event>, s': State, id: Id)
    requires Inv(s) && Undisturbed(s, id) && Leads(s, trace, s')
    requires forall ev | ev in trace :: !Disturbs(ev, id)
    ensures Undisturbed(s', id)
    decreases |trace|
  {
    if trace != [] {
      assert trace[0] in trace;
      UndisturbedStep(s, trace[0], id);
      StepKeeps(s, trace[0]);
      LeadsUndisturbed(Apply(s, trace[0]), trace[1..], s', id);
    }
  }

  lemma TaskIsOver(f: Fields, s: State, id: Id)
    requires Inv(s) && Matches(f, s) && At(s, id, Ended)
    ensures id in f.captured && f.captured[id] ==> |Results(f.calls, id)| == if s.tasks[id].orphaned then 2 else 1
  {
    assert TaskMatches(f, s, id) && TaskOk(s, id);
  }

  lemma EndsUndisturbed(f: Fields, s: State, trace: seq<Event>, f': Fields, s': State, id: Id, maxRetries: int)
    requires Inv(s) && Matches(f, s) && Matches(f', s') && Leads(s, trace, s')
    requires At(s, id, LoopHead(0, maxRetries)) && At(s', id, Ended) && s.tasks[id].maxRetries == maxRetries
    requires id in f.pending && Results(f.calls, id) == [] && forall ev | ev in trace :: !Disturbs(ev, id)
    ensures multiset(f'.packets)[id] == if maxRetries < 0 then 0 else maxRetries
    ensures Results(f'.calls, id) == if id in f'.captured && f'.captured[id] then [false] else []
  {
    assert TaskMatches(f, s, id) && TaskMatches(f', s', id);
    hide Inv, Leads, Results, Matches, TaskMatches;
    assert Undisturbed(s, id);
    LeadsUndisturbed(s, trace, s', id);
    LimitKept(s, trace, s', id);
  }

  lemma {:induction false} LimitKept(s: State, trace: seq<Event>, s': State, id: Id)
    requires id in s.tasks && Leads(s, trace, s')
    ensures id in s'.tasks && s'.tasks[id].maxRetries == s.tasks[id].maxRetries
    decreases |trace|
  {
    if trace != [] {
      LimitKeptOnce(s, trace[0], id);
      LimitKept(Apply(s, trace[0]), trace[1..], s', id);
    }
  }

  lemma LimitKeptOnce(s: State, ev: Event, id: Id)
    requires id in s.tasks && Enabled(s, ev)
    ensures id in Apply(s, ev).tasks && Apply(s, ev).tasks[id].maxRetries == s.tasks[id].maxRetries
  {
    match ev case _ =>
  }

  lemma QuietTogether(one: seq<Event>, two: seq<Event>, id: Id)
    ensures NothingRaises(one, id) && NothingRaises(two, id) ==> NothingRaises(one + two, id)
  {
  }

  function Slot<T>(plan: seq<seq<T>>, k: nat): seq<T> {
    if k < |plan| then plan[k] else []
  }

  lemma LeadsNowhere(s: State)
    ensures Leads(s, [], s)
  {
  }

  class Server {
    var pending: map<Id, bool>
    var captured: map<Id, bool>
    var calls: seq<(Id, bool)>
    var packets: seq<Id>
    var poolShut: bool

    /** Where the threads of all commands are, and what has been observed. */
    var machine: State

    ghost function View(): Fields
      reads this
    {
      Fields(pending, captured, calls, packets, poolShut)
    }

    ghost predicate Valid()
      reads this
    {
      Inv(machine) && Matches(View(), machine)
    }

    constructor ()
      ensures Valid() && machine == START
    {
      pending, captured, calls, packets, poolShut, machine := map[], map[], [], [], false, START;
    }

    /** Note that `ev` has happened; the fields follow it. */
    method Happens(ev: Event, ghost before: Fields)
      requires Inv(machine) && Enabled(machine, ev) && ev != StopNotifies
      requires Matches(before, machine) && View() == FieldsAfter(before, ev)
      modifies this`machine
      ensures Valid() && machine == Apply(old(machine), ev)
    {
      hide Inv, Matches, Enabled, Apply;
      assert Enabled(machine, ev);
      StillMatches(before, machine, ev);
      StepKeeps(machine, ev);
      machine := Apply(machine, ev);
    }

    /** `command_ack_handler` */
    method CommandAckHandler(id: Id)
      requires Valid()
      modifies this
      ensures Valid() && machine == Apply(old(machine), AckArrives(id))
    {
      ghost var before := View();
      assert id in pending ==> id in captured && captured[id] == pending[id] by {
        assert TaskMatches(View(), machine, id);
      }
      assert Inv(machine) && Matches(before, machine) && Enabled(machine, AckArrives(id));
      hide Inv, Matches, Apply;
      if id in pending {
        var callback := pending[id];
        pending := pending - {id};
        if callback {
          calls := calls + [(id, true)];
        }
      }
      Happens(AckArrives(id), before);
    }

    /** `send_command` up to the submission */
    method Enter(id: Id, callback: bool, maxRetries: int)
      requires Valid() && id !in machine.tasks
      modifies this
      ensures Valid() && machine == Apply(old(machine), Register(id, callback, maxRetries))
    {
      hide Inv, Matches, Apply;
      ghost var before := View();
      pending := pending[id := callback];
      captured := captured[id := callback];
      Happens(Register(id, callback, maxRetries), before);
    }

    /** `thread_pool.submit` either takes the task or raises because the pool is shut down. */
    method Submit(id: Id) returns (ok: bool)
      requires Valid() && At(machine, id, Registered)
      modifies this
      ensures Valid() && ok == !old(machine).shut
      ensures machine == Apply(old(machine), if ok then SubmitOk(id) else SubmitFails(id))
    {
      assert poolShut == machine.shut;
      hide Inv, Matches, Apply;
      ok := !poolShut;
      ghost var before := View();
      Happens(if ok then SubmitOk(id) else SubmitFails(id), before);
    }

    /** The test at the top of an attempt */
    method CheckPending(id: Id) returns (present: bool)
      requires Valid() && Enabled(machine, Check(id))
      modifies this
      ensures Valid() && machine == Apply(old(machine), Check(id))
      ensures present == (id in old(machine).pending)
    {
      assert TaskMatches(View(), machine, id);
      hide Inv, Matches, Apply, Enabled;
      present := id in pending;
      ghost var before := View();
      Happens(Check(id), before);
    }

    /** `self.send(command)`, which may raise before the packet is queued */
    method Send(id: Id, raises: bool)
      requires Valid() && SendingNow(machine, id)
      modifies this
      ensures Valid() && machine == Apply(old(machine), if raises then TransmitRaises(id) else Transmit(id))
    {
      hide Inv, Matches, Apply;
      ghost var before := View();
      if raises {
        Happens(TransmitRaises(id), before);
      } else {
        packets := packets + [id];
        Happens(Transmit(id), before);
      }
    }

    /** After the last attempt. The callback may raise. */
    method GiveUp(id: Id, callbackRaises: bool) returns (raised: bool)
      requires Valid() && At(machine, id, Expiring)
      modifies this
      ensures Valid()
      ensures raised == (callbackRaises && old(machine).tasks[id].callback && id in old(machine).pending)
      ensures machine == Apply(old(machine), if raised then ExpireRaises(id) else Expire(id))
    {
      assert TaskMatches(View(), machine, id);
      hide Inv, Matches, Apply;
      ghost var before := View();
      raised := false;
      if id in pending {
        pending := pending - {id};
        if captured[id] {
          calls := calls + [(id, false)];
          raised := callbackRaises;
        }
      } else {
        assert pending - {id} == pending;
      }
      Happens(if raised then ExpireRaises(id) else Expire(id), before);
    }

    /** The error path: `except Exception` in the task, `except RuntimeError` around the submission */
    method Forget(id: Id)
      requires Valid() && At(machine, id, Failing)
      modifies this
      ensures Valid() && machine == Apply(old(machine), CleanUp(id))
    {
      hide Inv, Matches, Apply;
      ghost var before := View();
      pending := pending - {id};
      Happens(CleanUp(id), before);
    }

    method ReportFailure(id: Id)
      requires Valid() && At(machine, id, Reporting)
      modifies this
      ensures Valid() && machine == Apply(old(machine), Event.Report(id))
    {
      assert TaskMatches(View(), machine, id);
      hide Inv, Matches, Apply;
      ghost var before := View();
      if captured[id] {
        calls := calls + [(id, false)];
      }
      Happens(Event.Report(id), before);
    }

    /** The part of `stop()` under the lock: every callback is told, in any order. */
    method NotifyStop()
      requires Valid()
      modifies this
      ensures Valid() && machine == Apply(old(machine), StopNotifies)
    {
      hide Inv, Apply, Matches, Results;
      StepKeeps(machine, StopNotifies);
      ghost var before := View();
      var todo := pending.Keys;
      while todo != {}
        invariant todo <= pending.Keys
        invariant View() == before.(calls := calls) && machine == old(machine)
        invariant forall id ::
            Results(calls, id) ==
            Results(before.calls, id) + if id in pending && id !in todo && pending[id] then [false] else []
      {
        var id :| id in todo;
        if pending[id] {
          OneMoreResult(calls, id, false);
          calls := calls + [(id, false)];
        }
        todo := todo - {id};
      }
      AllTold(before, machine, calls);
      pending := map[];
      machine := Apply(machine, StopNotifies);
    }

    method ShutPool()
      requires Valid()
      modifies this
      ensures Valid() && machine == Apply(old(machine), Shutdown)
    {
      hide Inv, Matches, Apply;
      ghost var before := View();
      poolShut := true;
      Happens(Shutdown, before);
    }

    /** One event, carried out by the object. */
    method Do(ev: Event)
      requires Valid() && Enabled(machine, ev)
      modifies this
      ensures Valid() && machine == Apply(old(machine), ev)
    {
      hide Inv, Matches, Apply;
      match ev {
        case Register(id, callback, maxRetries) => Enter(id, callback, maxRetries);
        case SubmitOk(id) => var _ := Submit(id);
        case SubmitFails(id) => var _ := Submit(id);
        case Check(id) => var _ := CheckPending(id);
        case Transmit(id) => Send(id, false);
        case TransmitRaises(id) => Send(id, true);
        case Expire(id) => var _ := GiveUp(id, false);
        case ExpireRaises(id) => var _ := GiveUp(id, true);
        case CleanUp(id) => Forget(id);
        case Report(id) => ReportFailure(id);
        case AckArrives(id) => CommandAckHandler(id);
        case StopNotifies => NotifyStop();
        case Shutdown => ShutPool();
      }
    }

    /** Whatever the other threads get to do before this one goes on. */
    method Others(id: Id, events: seq<Event>) returns (ghost trace: seq<Event>)
      requires Valid() && id in machine.tasks
      modifies this
      ensures Valid() && Leads(old(machine), trace, machine)
      ensures id in machine.tasks && machine.tasks[id].pc == old(machine).tasks[id].pc
      ensures machine.tasks[id].maxRetries == old(machine).tasks[id].maxRetries
      ensures NothingRaises(trace, id)
    {
      trace := [];
      for i := 0 to |events|
        invariant Valid() && Leads(old(machine), trace, machine) && NothingRaises(trace, id)
        invariant id in machine.tasks && machine.tasks[id].pc == old(machine).tasks[id].pc
        invariant machine.tasks[id].maxRetries == old(machine).tasks[id].maxRetries
      {
        hide Inv, Matches, Apply, Enabled, Leads;
        if Enabled(machine, events[i]) && !OwnEvent(events[i], id) {
          LeadsOneOn(old(machine), trace, machine, events[i]);
          OthersDoNotTouch(machine, events[i], id);
          trace := trace + [events[i]];
          Do(events[i]);
        }
      }
    }

    /** The error path: drop the entry under the lock, then report failure. */
    method Fail(id: Id, others: seq<seq<Event>>) returns (ghost trace: seq<Event>)
      requires Valid() && At(machine, id, Failing)
      modifies this
      ensures Valid() && Leads(old(machine), trace, machine) && At(machine, id, Ended)
      ensures NothingRaises(trace, id)
    {
      hide Inv, Matches, Leads;
      trace := Others(id, Slot(others, 0));
      LeadsOneOn(old(machine), trace, machine, CleanUp(id));
      QuietTogether(trace, [CleanUp(id)], id);
      trace := trace + [CleanUp(id)];
      assert NothingRaises(trace, id);
      Forget(id);
      ghost var m := machine;
      ghost var more := Others(id, Slot(others, 1));
      QuietTogether(trace, more, id);
      QuietTogether(trace + more, [Event.Report(id)], id);
      hide NothingRaises;
      LeadsOn(old(machine), trace, m, more, machine);
      LeadsOneOn(old(machine), trace + more, machine, Event.Report(id));
      trace := trace + more + [Event.Report(id)];
      ReportFailure(id);
    }

    /** One pass of the retry loop: look, then send. */
    method Attempt(id: Id, raises: bool, others: seq<seq<Event>>) returns (ghost trace: seq<Event>)
      requires Valid() && id in machine.tasks && machine.tasks[id].pc.Checking?
      modifies this
      ensures Valid() && Leads(old(machine), trace, machine)
      ensures id in machine.tasks && machine.tasks[id].maxRetries == old(machine).tasks[id].maxRetries
      ensures machine.tasks[id].pc in
                {Ended, Failing, LoopHead(old(machine).tasks[id].pc.attempt + 1, machine.tasks[id].maxRetries)}
      ensures !raises ==> NothingRaises(trace, id)
    {
      hide Inv, Matches, Leads;
      trace := Others(id, Slot(others, 0));
      LeadsOneOn(old(machine), trace, machine, Check(id));
      trace := trace + [Check(id)];
      var present := CheckPending(id);
      if !present {
        return;
      }
      ghost var m := machine;
      ghost var more := Others(id, Slot(others, 1));
      LeadsOn(old(machine), trace, m, more, machine);
      ghost var ev := if raises then TransmitRaises(id) else Transmit(id);
      LeadsOneOn(old(machine), trace + more, machine, ev);
      trace := trace + more + [ev];
      Send(id, raises);
    }

    /** `send_command` on the caller's thread. A shut pool makes it report failure itself. */
    method SendCommand(id: Id, callback: bool, maxRetries: int, others: seq<seq<Event>>)
      returns (submitted: bool, ghost trace: seq<Event>)
      requires Valid() && id !in machine.tasks
      modifies this
      ensures Valid() && Leads(old(machine), trace, machine) && id in machine.tasks
      ensures submitted ==> At(machine, id, LoopHead(0, maxRetries)) && machine.tasks[id].maxRetries == maxRetries
      ensures !submitted ==> At(machine, id, Ended)
    {
      hide Inv, Matches, Leads;
      LeadsNowhere(machine);
      LeadsOneOn(machine, [], machine, Register(id, callback, maxRetries));
      trace := [] + [Register(id, callback, maxRetries)];
      Enter(id, callback, maxRetries);
      ghost var m := machine;
      ghost var more := Others(id, Slot(others, 0));
      LeadsOn(old(machine), trace, m, more, machine);
      trace := trace + more;
      var m1 := machine;
      submitted := Submit(id);
      ghost var ev := if submitted then SubmitOk(id) else SubmitFails(id);
      LeadsOneOn(old(machine), trace, m1, ev);
      trace := trace + [ev];
      if !submitted {
        m := machine;
        more := Fail(id, if others == [] then [] else others[1..]);
        LeadsOn(old(machine), trace, m, more, machine);
        trace := trace + more;
      }
    }

    /** What follows the loop. */
    method Finish(id: Id, callbackRaises: bool, others: seq<seq<Event>>, later: seq<seq<Event>>)
        returns (ghost trace: seq<Event>)
      requires Valid() && id in machine.tasks && machine.tasks[id].pc in {Expiring, Failing, Ended}
      modifies this
      ensures Valid() && Leads(old(machine), trace, machine) && At(machine, id, Ended)
      ensures !callbackRaises ==> NothingRaises(trace, id)
    {
      hide Inv, Matches, Leads;
      trace := Others(id, Slot(others, 0));
      if machine.tasks[id].pc == Expiring {
        var m0 := machine;
        var raised := GiveUp(id, callbackRaises);
        ghost var ev := if raised then ExpireRaises(id) else Expire(id);
        LeadsOneOn(old(machine), trace, m0, ev);
        trace := trace + [ev];
      }
      if machine.tasks[id].pc == Failing {
        ghost var m := machine;
        ghost var more := Fail(id, later);
        LeadsOn(old(machine), trace, m, more, machine);
        trace := trace + more;
      }
    }

    /**
     * `retry_task`, with other threads running between its critical sections. `raises` are the
     * attempts whose transmission raises. Whatever happens, the task ends, and what it did is a
     * run of the machine. If nothing raises and nobody takes the entry, the command was sent
     * `max_retries` times and the callback is told False once.
     */
    method RetryTask(id: Id, maxRetries: int, raises: set<nat>, callbackRaises: bool, others: seq<seq<seq<Event>>>)
      returns (ghost trace: seq<Event>)
      requires Valid() && At(machine, id, LoopHead(0, maxRetries)) && machine.tasks[id].maxRetries == maxRetries
      modifies this
      ensures Valid() && Leads(old(machine), trace, machine) && At(machine, id, Ended)
      ensures id in captured && captured[id] ==> |Results(calls, id)| == if machine.tasks[id].orphaned then 2 else 1
      ensures raises == {} && !callbackRaises ==> NothingRaises(trace, id)
      ensures id in old(pending) && Results(old(calls), id) == [] && (forall ev | ev in trace :: !Disturbs(ev, id)) ==>
                && multiset(packets)[id] == (if maxRetries < 0 then 0 else maxRetries)
                && Results(calls, id) == if id in captured && captured[id] then [false] else []
    {
      hide Leads;
      trace := [];
      assert Leads(old(machine), trace, machine) by { LeadsNowhere(machine); }
      var attempt := 0;
      var here := LoopHead(0, maxRetries);
      while here.Checking?
        invariant Valid() && Leads(old(machine), trace, machine)
        invariant attempt >= 0 && At(machine, id, here) && machine.tasks[id].maxRetries == maxRetries
        invariant here in {Ended, Failing, LoopHead(attempt, maxRetries)}
        invariant raises == {} ==> NothingRaises(trace, id)
        decreases maxRetries - attempt
      {
        ghost var m := machine;
        ghost var more := Attempt(id, attempt in raises, Slot(others, attempt));
        LeadsOn(old(machine), trace, m, more, machine);
        trace := trace + more;
        here := machine.tasks[id].pc;
        attempt := attempt + 1;
      }
      ghost var m := machine;
      ghost var more := Finish(id, callbackRaises, Slot(others, attempt), Slot(others, attempt + 1));
      LeadsOn(old(machine), trace, m, more, machine);
      trace := trace + more;
      TaskIsOver(View(), machine, id);
      if id in old(pending) && Results(old(calls), id) == [] && forall ev | ev in trace :: !Disturbs(ev, id) {
        EndsUndisturbed(old(View()), old(machine), trace, View(), machine, id, maxRetries);
      }
    }
  }

  lemma AllTold(f: Fields, s: State, calls: seq<(Id, bool)>)
    requires Matches(f, s)
    requires forall id :: Results(calls, id) == Results(f.calls, id) + if id in f.pending && f.pending[id] then [false]
               else []
    ensures Matches(f.(pending := map[], calls := calls), Apply(s, StopNotifies))
  {
    var f' := f.(pending := map[], calls := calls);
    var s' := Apply(s, StopNotifies);
    forall id ensures TaskMatches(f', s', id) {
      assert TaskMatches(f, s, id);
    }
  }
}
