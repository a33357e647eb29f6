/**
 * The lock of the pending commands. The server calls a command's callback while it holds this
 * lock, which is not reentrant: exactly when all threads can finish, for any callbacks.
 */
module ServerLocks {
  import opened LockPrograms

  // ---------------------------------------------------------------- the methods

  /** `command_ack_handler`: the callback runs inside the lock. */
  function CommandAckHandler(callback: Code): Code {
    With(PendingLock, Either(Skip, callback))
  }

  /** Giving up inside the lock, or failing with the callback outside of it */
  function RetryTask(callback: Code): Code {
    Then(Repeat(With(PendingLock, Skip)),
         Either(Skip,
                Either(With(PendingLock, Either(Skip, callback)),
                       Then(With(PendingLock, Skip), Either(Skip, callback)))))
  }

  /** A submission that fails calls the callback after the lock is released. */
  function SendCommand(callback: Code): Code {
    Then(With(PendingLock, Skip), Either(Skip, Then(With(PendingLock, Skip), Either(Skip, callback))))
  }

  /** `stop`: the pending callbacks run inside the lock. */
  function Stop(callback: Code): Code {
    With(PendingLock, Repeat(Either(Skip, callback)))
  }

  /** Which methods call a callback inside the lock: one that takes it shows as a lock inside itself. */
  lemma WhereCallbacksRun()
    ensures var callback := With(PendingLock, Skip);
            var inside, outside := {({}, Pending), ({Pending}, Pending)}, {({}, Pending)};
            && Nesting(CommandAckHandler(callback), {}) == inside && Nesting(Stop(callback), {}) == inside
            && Nesting(RetryTask(callback), {}) == inside && Nesting(SendCommand(callback), {}) == outside
            && Nesting(CommandAckHandler(Skip), {}) == outside && Nesting(Stop(Skip), {}) == outside
            && Nesting(RetryTask(Skip), {}) == outside && Nesting(SendCommand(Skip), {}) == outside
  {
    assert {} + {Pending} == {Pending};
    var callback := With(PendingLock, Skip);
    assert Nesting(callback, {}) == {({}, Pending)} && Nesting(callback, {Pending}) == {({Pending}, Pending)};
  }

  /** What threads may do when each command has one of the given callbacks */
  function Methods(callbacks: set<Code>): set<Code> {
    (set c | c in callbacks :: CommandAckHandler(c)) + (set c | c in callbacks :: RetryTask(c)) +
    (set c | c in callbacks :: SendCommand(c)) + (set c | c in callbacks :: Stop(c))
  }

  /** A callback, as far as it uses the lock of the pending commands */
  predicate OnlyPending(c: Code) {
    match c
    case Skip => true
    case With(l, body) => l == PendingLock && OnlyPending(body)
    case Then(a, b) => OnlyPending(a) && OnlyPending(b)
    case Either(a, b) => OnlyPending(a) && OnlyPending(b)
    case Repeat(a) => OnlyPending(a)
    case Send => false
  }

  /** Some way through the code takes the lock, as `send_command` and `stop` do. */
  predicate MayTake(c: Code) {
    match c
    case Skip => false
    case With(_, _) => true
    case Then(a, b) => MayTake(a) || MayTake(b)
    case Either(a, b) => MayTake(a) || MayTake(b)
    case Repeat(a) => MayTake(a)
    case Send => false
  }

  // ---------------------------------------------------------------- callbacks that leave the lock alone

  lemma {:induction false} NeverTakesIsOrdered(c: Code, floor: int)
    requires OnlyPending(c) && !MayTake(c)
    ensures Ordered(c, floor)
  {
    match c
    case Skip =>
    case Then(a, b) =>
      NeverTakesIsOrdered(a, floor);
      NeverTakesIsOrdered(b, floor);
    case Either(a, b) =>
      NeverTakesIsOrdered(a, floor);
      NeverTakesIsOrdered(b, floor);
    case Repeat(a) => NeverTakesIsOrdered(a, floor);
  }

  lemma MethodsAreOrdered(callbacks: set<Code>)
    requires forall c | c in callbacks :: OnlyPending(c) && !MayTake(c)
    ensures forall m | m in Methods(callbacks) :: Ordered(m, -1)
  {
    forall c | c in callbacks ensures Ordered(c, 0) && Ordered(c, -1) {
      NeverTakesIsOrdered(c, 0);
      NeverTakesIsOrdered(c, -1);
    }
    forall c | c in callbacks
      ensures Ordered(CommandAckHandler(c), -1) && Ordered(RetryTask(c), -1)
      ensures Ordered(SendCommand(c), -1) && Ordered(Stop(c), -1)
    {
      MethodIsOrdered(c);
    }
    hide Ordered, CommandAckHandler, RetryTask, SendCommand, Stop;
  }

  lemma MethodIsOrdered(c: Code)
    requires Ordered(c, 0) && Ordered(c, -1)
    ensures Ordered(CommandAckHandler(c), -1) && Ordered(RetryTask(c), -1)
    ensures Ordered(SendCommand(c), -1) && Ordered(Stop(c), -1)
  {
    var quick, maybe := With(PendingLock, Skip), Either(Skip, c);
    assert Ordered(maybe, 0);
    assert Ordered(maybe, -1);
    assert Ordered(quick, -1);
    assert Ordered(Then(quick, maybe), -1);
    assert Ordered(With(PendingLock, maybe), -1);
    assert Ordered(Either(With(PendingLock, maybe), Then(quick, maybe)), -1);
    assert Ordered(Repeat(quick), -1);
    assert Ordered(Repeat(maybe), 0);
    assert Ordered(Either(Skip, Then(quick, maybe)), -1);
  }

  // ---------------------------------------------------------------- callbacks that take it

  /** Thread `t` holds the lock and wants it again; no other thread will release it. */
  ghost predicate Stuck(s: State, t: nat) {
    && t < |s.threads| && Wants(s.threads[t], PendingLock)
    && PendingLock in s.holder
    && forall o | 0 <= o < |s.threads| && o != t :: Release(PendingLock) !in s.threads[o]
  }

  lemma StuckStays(s: State, o: nat, s': State, t: nat)
    requires Stuck(s, t) && ThreadStep(s, o, s')
    ensures Stuck(s', t)
  {
    assert o != t;
    var th := s.threads[o];
    var rest := th[1..];
    assert th == [th[0]] + rest;
    match th[0]
    case Release(l) => assert l != PendingLock;
    case Run(With(l, body)) =>
    case Run(c) =>
      var next: Thread :| Unfolds(c, next) && s' == State(s.threads[o := next + rest], s.holder);
  }

  lemma {:induction false} StuckForEver(path: seq<State>, t: nat)
    requires path != [] && Stuck(path[0], t) && IsPath(path[0], path)
    ensures Stuck(path[|path| - 1], t) && !AllDone(path[|path| - 1])
  {
    if |path| > 1 {
      var before := path[..|path| - 1];
      StuckForEver(before, t);
      assert Advances(path[|path| - 2], path[|path| - 1]);
      var o: nat :| ThreadStep(path[|path| - 2], o, path[|path| - 1]);
      StuckStays(path[|path| - 2], o, path[|path| - 1], t);
    }
  }

  /** The thread can come to take the lock before it releases one. */
  predicate WillTake(th: Thread) {
    th != [] && th[0].Run? && OnlyPending(th[0].code) && (MayTake(th[0].code) || WillTake(th[1..]))
  }

  /** How much there is to do up to then, at most */
  function Distance(th: Thread): nat
    requires WillTake(th)
  {
    CodeSize(th[0].code) + if MayTake(th[0].code) then 0 else Distance(th[1..])
  }

  /** A choice of the next step that leads there */
  function Towards(c: Code): (next: Thread)
    requires !c.With? && OnlyPending(c)
  {
    match c
    case Then(a, b) => [Run(a), Run(b)]
    case Either(a, b) => if MayTake(a) then [Run(a)] else [Run(b)]
    case Repeat(a) => if MayTake(a) then [Run(a), Run(c)] else []
    case _ => []
  }

  lemma TowardsIsCloser(c: Code, rest: Thread)
    requires !c.With? && WillTake([Run(c)] + rest)
    ensures Unfolds(c, Towards(c)) && WillTake(Towards(c) + rest)
    ensures Distance(Towards(c) + rest) < Distance([Run(c)] + rest)
  {
    assert ([Run(c)] + rest)[1..] == rest;
    var next := Towards(c);
    if next == [] {
      assert next + rest == rest;
    } else {
      assert (next + rest)[1..] == next[1..] + rest;
      if |next| == 1 {
        assert next[1..] + rest == rest;
      } else {
        assert (next[1..] + rest)[1..] == rest && (next[1..] + rest)[0] == next[1];
      }
    }
  }

  lemma Longer(methods: set<Code>, states: seq<State>, s': State)
    requires IsRun(methods, states) && Step(methods, states[|states| - 1], s')
    ensures IsRun(methods, states + [s'])
  {
    hide Step;
    var more := states + [s'];
    forall i | 0 <= i < |more| - 1 ensures Step(methods, more[i], more[i + 1]) {
      if i < |states| - 1 {
        assert more[i] == states[i] && more[i + 1] == states[i + 1];
      }
    }
  }

  /** A single thread inside the lock that can come to take it again, comes to. */
  lemma DriveToLock(methods: set<Code>, states: seq<State>) returns (more: seq<State>)
    requires IsRun(methods, states)
    requires var s := states[|states| - 1]; |s.threads| == 1 && PendingLock in s.holder && WillTake(s.threads[0])
    ensures IsRun(methods, more) && Stuck(more[|more| - 1], 0)
    decreases Distance(states[|states| - 1].threads[0])
  {
    var s := states[|states| - 1];
    var th := s.threads[0];
    var c, rest := th[0].code, th[1..];
    assert th == [Run(c)] + rest;
    if c.With? {
      assert Wants(th, PendingLock);
      more := states;
    } else {
      TowardsIsCloser(c, rest);
      var s' := State(s.threads[0 := Towards(c) + rest], s.holder);
      assert ThreadStep(s, 0, s');
      Longer(methods, states, s');
      more := DriveToLock(methods, states + [s']);
    }
  }

  lemma CallbackBlocks(callbacks: set<Code>, c: Code) returns (states: seq<State>)
    requires c in callbacks && OnlyPending(c) && MayTake(c)
    ensures IsRun(Methods(callbacks), states) && Stuck(states[|states| - 1], 0)
  {
    var methods, handler := Methods(callbacks), CommandAckHandler(c);
    assert handler in methods;
    hide Methods;
    var started := State([[Run(handler)]], map[]);
    assert IDLE.threads + [[Run(handler)]] == started.threads;
    assert Step(methods, IDLE, started);
    Longer(methods, [IDLE], started);
    var inside := State([[Run(Either(Skip, c)), Release(PendingLock)]], map[PendingLock := 0]);
    var body := [Run(Either(Skip, c)), Release(PendingLock)];
    assert started.threads[0][1..] == [] && body + [] == body;
    assert started.threads[0 := body] == [body] == inside.threads;
    assert started.holder[PendingLock := 0] == inside.holder;
    assert ThreadStep(started, 0, inside);
    Longer(methods, [IDLE] + [started], inside);
    assert MayTake(Either(Skip, c)) && OnlyPending(Either(Skip, c));
    states := DriveToLock(methods, [IDLE] + [started] + [inside]);
  }

  ghost predicate CanFinish(s: State) {
    exists path: seq<State> :: IsPath(s, path) && AllDone(path[|path| - 1])
  }

  /**
   * From every reachable state all threads can finish if and only if no callback can take the lock,
   * that is call `send_command` or `stop`, say. One that can may block its thread for ever.
   */
  lemma NeverBlocksIff(callbacks: set<Code>)
    requires forall c | c in callbacks :: OnlyPending(c)
    ensures (forall states | IsRun(Methods(callbacks), states) :: CanFinish(states[|states| - 1])) <==>
              forall c | c in callbacks :: !MayTake(c)
  {
    var methods := Methods(callbacks);
    hide Methods, OnlyPending, MayTake, IsPath, Step;
    if forall c | c in callbacks :: !MayTake(c) {
      MethodsAreOrdered(callbacks);
      forall states | IsRun(methods, states) ensures CanFinish(states[|states| - 1]) {
        AlwaysDisciplined(methods, states);
        var path := FinishFrom(states[|states| - 1]);
      }
    } else {
      var c :| c in callbacks && MayTake(c);
      var states := CallbackBlocks(callbacks, c);
      NeverFinishes(states[|states| - 1]);
    }
  }

  lemma NeverFinishes(s: State)
    requires Stuck(s, 0)
    ensures !CanFinish(s)
  {
    hide Stuck, AllDone;
    forall path: seq<State> | IsPath(s, path) ensures !AllDone(path[|path| - 1]) {
      StuckForEver(path, 0);
    }
  }
}
