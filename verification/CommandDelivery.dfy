/**
 * A command on its way: the server's retry task, a network that loses, duplicates and reorders
 * packets, and a streamer that runs each command once and acknowledges it after that.
 */
module CommandDelivery {
  import D = Dispatch
  import opened ServerCommands

  /** The handlers of the client, named after the functions that are registered. */
  const ALL_HANDLER: D.Handler := "all_handler"
  const SYN_HANDLER: D.Handler := "syn_handler"
  const ACK_HANDLER: D.Handler := "ack_handler"
  const COMMAND_HANDLER: D.Handler := "command_handler"

  const STREAMER_COMMAND: D.Handler := "streamer.command_handler"

  /** `Client.initialize` */
  const CLIENT_HANDLERS := [
    D.Registration("Message", ALL_HANDLER),
    D.Registration("Syn", SYN_HANDLER),
    D.Registration("Ack", ACK_HANDLER),
    D.Registration("Command", COMMAND_HANDLER)]

  /** What the streamer script subscribes. */
  const STREAMER_SUBSCRIPTIONS := [
    D.Registration("Control", "control"),
    D.Registration("Latency", "latency"),
    D.Registration("Command", STREAMER_COMMAND)]

  const COMMAND_CLASSES: set<D.Cls> := {"Message", "Command"}

  /**
   * The streamer's side and the network. A packet once sent may arrive any number of times,
   * at any time, or never. `started` lists the actions begun, in order.
   */
  datatype Streamer = Streamer(received: set<Id>, started: seq<Id>, acked: set<Id>)

  /**
   * `command_handler` of the streamer script: the id is recorded before the action runs, so a
   * raising action is not begun again. The flag says whether the handler raises.
   */
  function RunCommand(s: Streamer, id: Id, raises: bool): (Streamer, bool) {
    if id in s.received then (s, false)
    else (s.(received := s.received + {id}, started := s.started + [id]), raises)
  }

  /** `all_handler`: call the subscribers in turn until one raises. */
  function RunSubscribers(s: Streamer, id: Id, raises: bool, subscribers: seq<D.Handler>): (Streamer, bool)
    decreases |subscribers|
  {
    if subscribers == [] then (s, false)
    else if subscribers[0] != STREAMER_COMMAND then RunSubscribers(s, id, raises, subscribers[1..])
    else
      var (s', raised) := RunCommand(s, id, raises);
      if raised then (s', true) else RunSubscribers(s', id, raises, subscribers[1..])
  }

  /** Run the client's handlers in the given order until one raises. */
  function RunHandlers(s: Streamer, id: Id, raises: bool, handlers: seq<D.Handler>): Streamer
    decreases |handlers|
  {
    if handlers == [] then s
    else if handlers[0] == ALL_HANDLER then
      var (s', raised) := RunSubscribers(s, id, raises, D.Called(D.Rows(STREAMER_SUBSCRIPTIONS), COMMAND_CLASSES));
      if raised then s' else RunHandlers(s', id, raises, handlers[1..])
    else if handlers[0] == COMMAND_HANDLER then
      RunHandlers(s.(acked := s.acked + {id}), id, raises, handlers[1..])
    else RunHandlers(s, id, raises, handlers[1..])
  }

  /** A command packet reaches the streamer. */
  function Deliver(s: Streamer, id: Id, raises: bool): Streamer {
    RunHandlers(s, id, raises, D.Called(D.Rows(CLIENT_HANDLERS), COMMAND_CLASSES))
  }

  datatype System = System(server: State, sent: set<Id>, streamer: Streamer)

  const INITIAL := System(START, {}, Streamer({}, [], {}))

  datatype Action =
    | AtServer(ev: Event)
    | AtStreamer(id: Id, raises: bool)

  predicate Possible(s: System, a: Action) {
    match a
    case AtServer(AckArrives(id)) => id in s.streamer.acked
    case AtServer(ev) => Enabled(s.server, ev)
    case AtStreamer(id, _) => id in s.sent
  }

  function Perform(s: System, a: Action): System
    requires Possible(s, a)
  {
    match a
    case AtServer(ev) =>
      s.(server := Apply(s.server, ev), sent := if ev.Transmit? then s.sent + {ev.id} else s.sent)
    case AtStreamer(id, raises) => s.(streamer := Deliver(s.streamer, id, raises))
  }

  predicate IsHistory(actions: seq<Action>)
    decreases actions, 0
  {
    actions != [] ==>
      && IsHistory(actions[..|actions| - 1])
      && Possible(Now(actions[..|actions| - 1]), actions[|actions| - 1])
  }

  function Now(actions: seq<Action>): System
    requires IsHistory(actions)
    decreases actions, 1
  {
    if actions == [] then INITIAL else Perform(Now(actions[..|actions| - 1]), actions[|actions| - 1])
  }

  // ---------------------------------------------------------------- dispatch at the streamer

  /** The subscribers of a command run before it is acknowledged. */
  lemma SubscribersComeFirst()
    ensures D.Called(D.Rows(CLIENT_HANDLERS), COMMAND_CLASSES) == [ALL_HANDLER, COMMAND_HANDLER]
  {
    var r := CLIENT_HANDLERS;
    forall i: nat, j: nat, k: nat ensures !D.Interleaves(r, COMMAND_CLASSES, i, j, k) {
    }
    D.OrderKeptIff(r, COMMAND_CLASSES);
    assert r[..3] == [r[0], r[1], r[2]] && r[..3][..2] == [r[0], r[1]] && r[..3][..2][..1] == [r[0]];
    assert D.InOrder([r[0]], COMMAND_CLASSES) == [ALL_HANDLER] by {
      assert [r[0]][..0] == [];
    }
    assert D.InOrder([r[0], r[1]], COMMAND_CLASSES) == [ALL_HANDLER];
    assert D.InOrder([r[0], r[1], r[2]], COMMAND_CLASSES) == [ALL_HANDLER];
    assert [ALL_HANDLER] + [COMMAND_HANDLER] == [ALL_HANDLER, COMMAND_HANDLER];
  }

  lemma OneSubscriber()
    ensures D.Called(D.Rows(STREAMER_SUBSCRIPTIONS), COMMAND_CLASSES) == [STREAMER_COMMAND]
  {
    var r := STREAMER_SUBSCRIPTIONS;
    forall i: nat, j: nat, k: nat ensures !D.Interleaves(r, COMMAND_CLASSES, i, j, k) {
    }
    D.OrderKeptIff(r, COMMAND_CLASSES);
    assert r[..2] == [r[0], r[1]] && r[..2][..1] == [r[0]] && [r[0]][..0] == [];
    assert [r[0], r[1]][..1] == [r[0]] && D.InOrder([r[0]], COMMAND_CLASSES) == [];
    assert D.InOrder([r[0], r[1]], COMMAND_CLASSES) == [];
  }

  /** A delivery records the command and starts its action the first time only, then acknowledges it. */
  lemma DeliverEffect(s: Streamer, id: Id, raises: bool)
    ensures var s' := Deliver(s, id, raises);
            && s'.received == s.received + {id}
            && s'.started == (if id in s.received then s.started else s.started + [id])
            && s'.acked == (if raises && id !in s.received then s.acked else s.acked + {id})
  {
    SubscribersComeFirst();
    OneSubscriber();
    var all := [ALL_HANDLER, COMMAND_HANDLER];
    assert all[1..] == [COMMAND_HANDLER] && all[1..][1..] == [];
    hide D.Called, D.Rows;
    var one := [STREAMER_COMMAND];
    assert one[1..] == [];
    var (s1, raised) := RunCommand(s, id, raises);
    assert RunSubscribers(s, id, raises, one) == (s1, raised);
    assert RunHandlers(s1, id, raises, all[1..]) == s1.(acked := s1.acked + {id});
  }

  // ---------------------------------------------------------------- what every action keeps

  ghost predicate StreamerOk(s: Streamer) {
    && s.acked <= s.received
    && (forall id :: id in s.started <==> id in s.received)
    && (forall i, j | 0 <= i < j < |s.started| :: s.started[i] != s.started[j])
  }

  ghost predicate SystemOk(s: System) {
    && Inv(s.server)
    && StreamerOk(s.streamer)
    && s.streamer.received <= s.sent <= s.server.tasks.Keys
    && (forall id | id in s.sent :: s.server.tasks[id].sends > 0)
    && (forall id | id in s.server.tasks && SaysYes(s.server.tasks[id]) :: id in s.streamer.acked)
  }

  lemma DeliverKeeps(s: Streamer, id: Id, raises: bool)
    requires StreamerOk(s)
    ensures StreamerOk(Deliver(s, id, raises))
    ensures s.received <= Deliver(s, id, raises).received <= s.received + {id}
    ensures s.acked <= Deliver(s, id, raises).acked
  {
    DeliverEffect(s, id, raises);
    hide Deliver;
  }

  lemma SendsGrow(s: State, ev: Event, id: Id)
    requires Enabled(s, ev) && id in s.tasks
    ensures id in Apply(s, ev).tasks && Apply(s, ev).tasks[id].sends >= s.tasks[id].sends
    ensures ev == Transmit(id) ==> Apply(s, ev).tasks[id].sends > 0
  {
    match ev case _ =>
  }

  lemma ServerActionKeeps(s: System, ev: Event)
    requires SystemOk(s) && Possible(s, AtServer(ev))
    ensures SystemOk(Perform(s, AtServer(ev)))
  {
    hide Inv, StreamerOk, SaysYes;
    var s' := Perform(s, AtServer(ev));
    assert Enabled(s.server, ev);
    assert ev.Transmit? ==> ev.id in s.server.tasks;
    hide Apply, Enabled;
    StepKeeps(s.server, ev);
    forall id | id in s.server.tasks
      ensures id in s'.server.tasks && s'.server.tasks[id].sends >= s.server.tasks[id].sends
      ensures ev == Transmit(id) ==> s'.server.tasks[id].sends > 0
    {
      SendsGrow(s.server, ev, id);
    }
    forall id | id in s'.server.tasks && SaysYes(s'.server.tasks[id]) ensures id in s.streamer.acked {
      YesNeedsAck(s.server, ev, id);
    }
  }

  lemma ActionKeeps(s: System, a: Action)
    requires SystemOk(s) && Possible(s, a)
    ensures SystemOk(Perform(s, a))
  {
    match a
    case AtServer(ev) => ServerActionKeeps(s, ev);
    case AtStreamer(id, raises) =>
      hide Inv, StreamerOk, SaysYes, Deliver;
      DeliverKeeps(s.streamer, id, raises);
  }

  lemma {:induction false} AlwaysOk(actions: seq<Action>)
    requires IsHistory(actions)
    ensures SystemOk(Now(actions))
  {
    if actions != [] {
      AlwaysOk(actions[..|actions| - 1]);
      ActionKeeps(Now(actions[..|actions| - 1]), actions[|actions| - 1]);
    }
  }

  function Times(ids: seq<Id>, id: Id): nat {
    multiset(ids)[id]
  }

  lemma {:induction false} OnceWhenDistinct(ids: seq<Id>, id: Id)
    requires forall i, j | 0 <= i < j < |ids| :: ids[i] != ids[j]
    ensures Times(ids, id) == if id in ids then 1 else 0
  {
    if ids != [] {
      OnceWhenDistinct(ids[1..], id);
      assert ids == [ids[0]] + ids[1..];
    }
  }

  /**
   * However packets are lost, repeated and reordered: no command's action is started twice, and
   * only commands that the server sent are started.
   */
  lemma AtMostOnce(actions: seq<Action>, id: Id)
    requires IsHistory(actions)
    ensures Times(Now(actions).streamer.started, id) <= 1
    ensures id in Now(actions).streamer.started ==>
              id in Now(actions).server.tasks && Now(actions).server.tasks[id].sends > 0
  {
    AlwaysOk(actions);
    OnceWhenDistinct(Now(actions).streamer.started, id);
  }

  /** `callback(True)` means that the streamer has recorded the command and begun it exactly once. */
  lemma SuccessMeansStarted(actions: seq<Action>, id: Id)
    requires IsHistory(actions) && id in Now(actions).server.tasks && SaysYes(Now(actions).server.tasks[id])
    ensures id in Now(actions).streamer.received
    ensures Times(Now(actions).streamer.started, id) == 1
  {
    AlwaysOk(actions);
    OnceWhenDistinct(Now(actions).streamer.started, id);
  }

  /** Once a command has arrived, each further arrival acknowledges it, even if its action had failed. */
  lemma SecondArrivalAcknowledges(s: Streamer, id: Id, first: bool, second: bool)
    ensures var once := Deliver(s, id, first); var twice := Deliver(once, id, second);
            && id in twice.acked && twice.started == once.started
            && (id in once.acked <==> id in s.acked || id in s.received || !first)
  {
    DeliverEffect(s, id, first);
    DeliverEffect(Deliver(s, id, first), id, second);
  }

  /** What the server alone does, as actions of the whole system */
  function Alone(events: seq<Event>): seq<Action> {
    seq(|events|, i requires 0 <= i < |events| => AtServer(events[i]))
  }

  /** A run of the server in which nothing is acknowledged can happen in the whole system. */
  lemma {:induction false} ServerAlone(events: seq<Event>)
    requires IsRun(events) && forall id :: AckArrives(id) !in events
    ensures IsHistory(Alone(events)) && Now(Alone(events)).server == After(events)
  {
    if events != [] {
      var n := |events| - 1;
      assert events[n] in events;
      assert forall id :: AckArrives(id) !in events[..n];
      ServerAlone(events[..n]);
      assert Alone(events)[..n] == Alone(events[..n]);
    }
  }

  /** Stopping the server while a command is being submitted reports its failure twice, in the whole system too. */
  lemma FailureReportedTwice() returns (actions: seq<Action>)
    ensures IsHistory(actions) && At(Now(actions).server, "c", Ended)
    ensures Now(actions).server.tasks["c"].fired == [false, false]
  {
    var events := StopDuringSubmission();
    ServerAlone(events);
    actions := Alone(events);
  }

  // ---------------------------------------------------------------- the streamer script

  const TRIM_STEP := 5

  /** Whether running the command raises; `popenFails` says that starting a program does. */
  predicate ActionRaises(kind: string, parameters: map<string, string>, popenFails: bool) {
    if kind == "service" then "action" !in parameters || "name" !in parameters || popenFails
    else if kind == "recording" then "action" !in parameters
    else if kind == "trim" then "action" !in parameters || popenFails
    else if kind == "shutdown" || kind == "restart" then popenFails
    else false
  }

  function TrimChange(kind: string, parameters: map<string, string>): int {
    if kind != "trim" || "action" !in parameters then 0
    else if parameters["action"] == "increase" then TRIM_STEP
    else -TRIM_STEP
  }

  class StreamerScript {
    var receivedCommandIds: set<Id>
    var steeringTrim: int
    ghost var started: seq<Id>
    ghost var acked: set<Id>

    ghost function View(): Streamer
      reads this
    {
      Streamer(receivedCommandIds, started, acked)
    }

    constructor (trim: int)
      ensures View() == INITIAL.streamer && steeringTrim == trim
    {
      receivedCommandIds, started, acked, steeringTrim := {}, [], {}, trim;
    }

    /** A repeated command changes nothing, whatever it carries. */
    method CommandHandler(id: Id, kind: string, parameters: map<string, string>, popenFails: bool)
        returns (raised: bool)
      modifies this
      ensures (View(), raised) == RunCommand(old(View()), id, ActionRaises(kind, parameters, popenFails))
      ensures steeringTrim == old(steeringTrim) + if id in old(receivedCommandIds) then 0
                else TrimChange(kind, parameters)
      ensures id !in old(receivedCommandIds) && kind == "trim" && "action" in parameters ==>
                steeringTrim == old(steeringTrim) + if parameters["action"] == "increase" then 5 else -5
      ensures id in old(receivedCommandIds) || kind != "trim" || "action" !in parameters ==>
                steeringTrim == old(steeringTrim)
      ensures receivedCommandIds == old(receivedCommandIds) + {id}
      ensures started == old(started) + if id in old(receivedCommandIds) then [] else [id]
      ensures raised <==>
                && id !in old(receivedCommandIds)
                && ((kind == "service" && ("action" !in parameters || "name" !in parameters || popenFails))
                    || (kind == "recording" && "action" !in parameters)
                    || (kind == "trim" && ("action" !in parameters || popenFails))
                    || (kind in {"shutdown", "restart"} && popenFails))
    {
      if id in receivedCommandIds {
        return false;
      }
      receivedCommandIds := receivedCommandIds + {id};
      started := started + [id];
      match kind {
        case "service" => return "action" !in parameters || "name" !in parameters || popenFails;
        case "recording" => return "action" !in parameters;
        case "trim" =>
          if "action" !in parameters {
            return true;
          }
          if parameters["action"] == "increase" {
            steeringTrim := steeringTrim + TRIM_STEP;
          } else {
            steeringTrim := steeringTrim - TRIM_STEP;
          }
          return popenFails;
        case "shutdown" => return popenFails;
        case "restart" => return popenFails;
        case _ => return false;
      }
    }
  }
}
