/**
 * Programs reduced to the locks they take, run by any number of threads in any interleaving. The
 * locks are not reentrant. Programs that take their locks in one order never deadlock.
 */
module LockPrograms {

  datatype Lock = SessionLock | MappingLock | TargetLock(target: nat) | PendingLock

  /**
   * The order in which PacketRelay documents its locks; a target's own lock comes last. The lock of
   * the server's pending commands is used in another process.
   */
  function Rank(l: Lock): int {
    match l case SessionLock => 0 case MappingLock => 1 case TargetLock(_) => 2 case PendingLock => 0
  }

  datatype Kind = Session | Mapping | Target | Pending

  function KindOf(l: Lock): Kind {
    match l
    case SessionLock => Session
    case MappingLock => Mapping
    case TargetLock(_) => Target
    case PendingLock => Pending
  }

  /** What a method does to the locks. */
  datatype Code =
    | Skip
    | With(lock: Lock, body: Code)
    | Then(first: Code, second: Code)
    | Either(left: Code, right: Code)
    | Repeat(body: Code)
      /** `_get_target(addr).send(…)`: over UDP without a lock, else under the lock of some target */
    | Send

  /** Each kind of lock the code may take, with the kinds of locks it holds at that moment */
  function Nesting(c: Code, held: set<Kind>): set<(set<Kind>, Kind)> {
    match c
    case Skip => {}
    case With(l, body) => {(held, KindOf(l))} + Nesting(body, held + {KindOf(l)})
    case Then(a, b) => Nesting(a, held) + Nesting(b, held)
    case Either(a, b) => Nesting(a, held) + Nesting(b, held)
    case Repeat(a) => Nesting(a, held)
    case Send => {(held, Target)}
  }

  // ---------------------------------------------------------------- threads

  /** What a thread still has to do, next item first. */
  datatype Item = Run(code: Code) | Release(lock: Lock)
  type Thread = seq<Item>

  datatype State = State(threads: seq<Thread>, holder: map<Lock, nat>)

  const IDLE := State([], map[])

  /** What the code `c` may turn into. Taking a lock is a step of its own. */
  ghost predicate Unfolds(c: Code, next: Thread) {
    match c
    case Skip => next == []
    case With(_, _) => false
    case Then(a, b) => next == [Run(a), Run(b)]
    case Either(a, b) => next == [Run(a)] || next == [Run(b)]
    case Repeat(a) => next == [] || next == [Run(a), Run(c)]
    case Send => next == [] || exists i :: next == [Run(With(TargetLock(i), Skip))]
  }

  predicate Wants(th: Thread, l: Lock) {
    th != [] && th[0].Run? && th[0].code.With? && th[0].code.lock == l
  }

  /** Thread `t` takes one step. */
  ghost predicate ThreadStep(s: State, t: nat, s': State) {
    t < |s.threads| && s.threads[t] != [] &&
    var rest := s.threads[t][1..];
    match s.threads[t][0]
    case Release(l) => s' == State(s.threads[t := rest], s.holder - {l})
    case Run(With(l, body)) =>
      l !in s.holder && s' == State(s.threads[t := [Run(body), Release(l)] + rest], s.holder[l := t])
    case Run(c) =>
      exists next: Thread :: Unfolds(c, next) && s' == State(s.threads[t := next + rest], s.holder)
  }

  /** A thread takes a step, or a new one is started on one of the methods. */
  ghost predicate Step(methods: set<Code>, s: State, s': State) {
    || (exists t: nat :: ThreadStep(s, t, s'))
    || (exists c :: c in methods && s' == s.(threads := s.threads + [[Run(c)]]))
  }

  ghost predicate IsRun(methods: set<Code>, states: seq<State>) {
    && states != []
    && states[0] == IDLE
    && forall i | 0 <= i < |states| - 1 :: Step(methods, states[i], states[i + 1])
  }

  // ---------------------------------------------------------------- the discipline

  /** Inside a lock of rank `floor` the code takes only locks of higher rank. */
  predicate Ordered(c: Code, floor: int) {
    match c
    case Skip => true
    case With(l, body) => Rank(l) > floor && Ordered(body, Rank(l))
    case Then(a, b) => Ordered(a, floor) && Ordered(b, floor)
    case Either(a, b) => Ordered(a, floor) && Ordered(b, floor)
    case Repeat(a) => Ordered(a, floor)
    case Send => floor < 2
  }

  /** The rank of the lock taken last and still held. */
  function Floor(th: Thread): int {
    if th == [] then -1
    else match th[0]
      case Release(l) => Rank(l)
      case Run(_) => Floor(th[1..])
  }

  predicate Disciplined(th: Thread) {
    th != [] ==>
      && Disciplined(th[1..])
      && match th[0]
         case Release(l) => Rank(l) > Floor(th[1..])
         case Run(c) => Ordered(c, Floor(th[1..]))
  }

  ghost predicate Inv(s: State) {
    && (forall t | 0 <= t < |s.threads| :: Disciplined(s.threads[t]))
    && (forall l | l in s.holder :: s.holder[l] < |s.threads| && Release(l) in s.threads[s.holder[l]])
    && (forall t, l | 0 <= t < |s.threads| && Release(l) in s.threads[t] :: l in s.holder && s.holder[l] == t)
  }

  lemma {:induction false} HeldIsBelowFloor(th: Thread, l: Lock)
    requires Disciplined(th) && Release(l) in th
    ensures Rank(l) <= Floor(th)
  {
    if th[0] != Release(l) {
      HeldIsBelowFloor(th[1..], l);
    }
  }

  lemma UnfoldingKeepsDiscipline(c: Code, next: Thread, rest: Thread)
    requires Disciplined([Run(c)] + rest) && Unfolds(c, next)
    ensures Disciplined(next + rest)
    ensures forall l :: Release(l) in next + rest <==> Release(l) in rest
  {
    assert ([Run(c)] + rest)[1..] == rest;
    if next == [] {
      assert next + rest == rest;
    } else {
      assert (next + rest)[1..] == next[1..] + rest;
      if |next| == 1 {
        assert next[1..] + rest == rest;
      } else {
        assert (next[1..] + rest)[1..] == rest;
      }
    }
  }

  /** Thread `t` becomes `th`, and the holders change to match. */
  lemma ReplacingKeeps(s: State, t: nat, th: Thread, s': State)
    requires Inv(s) && t < |s.threads| && Disciplined(th)
    requires s'.threads == s.threads[t := th]
    requires forall l :: l in s'.holder && s'.holder[l] == t <==> Release(l) in th
    requires forall l :: l in s'.holder && s'.holder[l] != t <==> l in s.holder && s.holder[l] != t
    requires forall l | l in s'.holder && s'.holder[l] != t :: s'.holder[l] == s.holder[l]
    ensures Inv(s')
  {
    hide Disciplined;
  }

  lemma ReleasingKeeps(s: State, t: nat, s': State)
    requires Inv(s) && ThreadStep(s, t, s') && s.threads[t][0].Release?
    ensures Inv(s')
  {
    var th := s.threads[t];
    var rest := th[1..];
    var l := th[0].lock;
    assert th == [th[0]] + rest;
    if Release(l) in rest {
      HeldIsBelowFloor(rest, l);
    }
    ReplacingKeeps(s, t, rest, s');
  }

  lemma TakingKeeps(s: State, t: nat, l: Lock, body: Code, s': State)
    requires Inv(s) && ThreadStep(s, t, s') && s.threads[t][0] == Run(With(l, body))
    ensures Inv(s')
  {
    var th := s.threads[t];
    var rest := th[1..];
    assert th == [th[0]] + rest;
    var now := [Run(body), Release(l)] + rest;
    assert now[1..] == [Release(l)] + rest && now[1..][1..] == rest;
    ReplacingKeeps(s, t, now, s');
  }

  lemma UnfoldingKeeps(s: State, t: nat, c: Code, s': State)
    requires Inv(s) && ThreadStep(s, t, s') && s.threads[t][0] == Run(c) && !c.With?
    ensures Inv(s')
  {
    var th := s.threads[t];
    var rest := th[1..];
    assert th == [Run(c)] + rest;
    var next: Thread :| Unfolds(c, next) && s' == State(s.threads[t := next + rest], s.holder);
    hide Disciplined;
    UnfoldingKeepsDiscipline(c, next, rest);
    ReplacingKeeps(s, t, next + rest, s');
  }

  lemma ThreadStepKeeps(s: State, t: nat, s': State)
    requires Inv(s) && ThreadStep(s, t, s')
    ensures Inv(s')
  {
    hide Inv;
    match s.threads[t][0]
    case Release(_) => ReleasingKeeps(s, t, s');
    case Run(With(l, body)) => TakingKeeps(s, t, l, body, s');
    case Run(c) => UnfoldingKeeps(s, t, c, s');
  }

  lemma StepKeeps(methods: set<Code>, s: State, s': State)
    requires (forall c | c in methods :: Ordered(c, -1)) && Inv(s) && Step(methods, s, s')
    ensures Inv(s')
  {
    if t: nat :| ThreadStep(s, t, s') {
      ThreadStepKeeps(s, t, s');
    }
  }

  lemma {:induction false} AlwaysDisciplined(methods: set<Code>, states: seq<State>)
    requires (forall c | c in methods :: Ordered(c, -1)) && IsRun(methods, states)
    ensures Inv(states[|states| - 1])
  {
    if |states| > 1 {
      var before := states[..|states| - 1];
      AlwaysDisciplined(methods, before);
      StepKeeps(methods, before[|before| - 1], states[|states| - 1]);
    }
  }

  // ---------------------------------------------------------------- progress

  function CodeSize(c: Code): nat {
    match c
    case Skip => 1
    case With(_, body) => CodeSize(body) + 2
    case Then(a, b) => CodeSize(a) + CodeSize(b) + 1
    case Either(a, b) => CodeSize(a) + CodeSize(b) + 1
    case Repeat(a) => CodeSize(a) + 1
    case Send => 1
  }

  function Size(th: Thread): nat {
    if th == [] then 0
    else (match th[0] case Run(c) => CodeSize(c) case Release(_) => 1) + Size(th[1..])
  }

  function TotalSize(threads: seq<Thread>): nat {
    if threads == [] then 0 else Size(threads[0]) + TotalSize(threads[1..])
  }

  lemma {:induction false} SizeOfConcat(a: Thread, b: Thread)
    ensures Size(a + b) == Size(a) + Size(b)
  {
    if a == [] {
      assert a + b == b;
    } else {
      assert (a + b)[1..] == a[1..] + b;
      SizeOfConcat(a[1..], b);
    }
  }

  /** Leaving every loop and taking any branch shortens the code. */
  function Shortcut(c: Code): (next: Thread)
    requires !c.With?
    ensures Size(next) < CodeSize(c)
  {
    match c
    case Then(a, b) => assert Size([Run(a), Run(b)][1..]) == CodeSize(b); [Run(a), Run(b)]
    case Either(a, b) => [Run(a)]
    case _ => []
  }

  lemma {:induction false} TotalShrinks(threads: seq<Thread>, t: nat, th: Thread)
    requires t < |threads| && Size(th) < Size(threads[t])
    ensures TotalSize(threads[t := th]) < TotalSize(threads)
  {
    var after := threads[t := th];
    if t == 0 {
      assert after[1..] == threads[1..];
    } else {
      assert after[1..] == threads[1..][t - 1 := th];
      TotalShrinks(threads[1..], t - 1, th);
    }
  }

  predicate Blocked(s: State, t: nat) {
    t < |s.threads| && exists l | l in s.holder :: Wants(s.threads[t], l)
  }

  predicate AllDone(s: State) {
    forall t | 0 <= t < |s.threads| :: s.threads[t] == []
  }

  /** Following the holder of the lock one waits for leads to locks of ever higher rank, so it ends. */
  lemma {:induction false} SomeThreadIsFree(s: State, t: nat) returns (free: nat)
    requires Inv(s) && t < |s.threads| && s.threads[t] != []
    ensures free < |s.threads| && s.threads[free] != [] && !Blocked(s, free)
    decreases 3 - (if Blocked(s, t) then Rank(s.threads[t][0].code.lock) else 3)
  {
    if Blocked(s, t) {
      var l := s.threads[t][0].code.lock;
      var next := s.holder[l];
      HeldIsBelowFloor(s.threads[next], l);
      if Blocked(s, next) {
        assert Floor(s.threads[next]) == Floor(s.threads[next][1..]);
      }
      free := SomeThreadIsFree(s, next);
    } else {
      free := t;
    }
  }

  /** A thread that is not blocked has a step that leaves it less to do. */
  lemma FreeThreadAdvances(s: State, t: nat) returns (s': State)
    requires t < |s.threads| && s.threads[t] != [] && !Blocked(s, t)
    ensures ThreadStep(s, t, s')
    ensures TotalSize(s'.threads) < TotalSize(s.threads)
  {
    var th := s.threads[t];
    var rest := th[1..];
    var now: Thread;
    match th[0] {
      case Release(l) =>
        now := rest;
        s' := State(s.threads[t := now], s.holder - {l});
      case Run(With(l, body)) =>
        assert Wants(th, l);
        now := [Run(body), Release(l)] + rest;
        assert now[1..] == [Release(l)] + rest && now[1..][1..] == rest;
        s' := State(s.threads[t := now], s.holder[l := t]);
      case Run(c) =>
        assert Unfolds(c, Shortcut(c));
        now := Shortcut(c) + rest;
        SizeOfConcat(Shortcut(c), rest);
        s' := State(s.threads[t := now], s.holder);
    }
    TotalShrinks(s.threads, t, now);
  }

  ghost predicate Advances(s: State, s': State) {
    exists t: nat :: ThreadStep(s, t, s')
  }

  ghost predicate IsPath(s: State, path: seq<State>) {
    && path != [] && path[0] == s
    && forall i | 0 <= i < |path| - 1 :: Advances(path[i], path[i + 1])
  }

  lemma FinishFrom(s: State) returns (path: seq<State>)
    requires Inv(s)
    ensures IsPath(s, path) && AllDone(path[|path| - 1])
    decreases TotalSize(s.threads)
  {
    hide Inv, ThreadStep;
    if AllDone(s) {
      path := [s];
    } else {
      var t :| 0 <= t < |s.threads| && s.threads[t] != [];
      var free := SomeThreadIsFree(s, t);
      var s' := FreeThreadAdvances(s, free);
      ThreadStepKeeps(s, free, s');
      var rest := FinishFrom(s');
      path := [s] + rest;
    }
  }
}
