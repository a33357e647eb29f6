/**
 * `forward_packet` among other threads, in small steps. The mapping and its target set are
 * objects: the forwarder finds the mapping under the mapping lock, but reads `mapping.targets`
 * and walks over that set after it has released the lock.
 */
module ForwardSnapshot {
  import opened RelayTypes

  type MappingId = nat
  type SetId = nat
  type TargetId = nat

  /** What one call has done so far, in order. Each address stands with the TCP target found for it. */
  datatype Sent = Sent(inline: seq<Address>, deferred: seq<(Address, TargetId)>, dropped: seq<(Address, TargetId)>)

  const NOTHING := Sent([], [], [])

  /** Where the forwarder is. */
  datatype Stage =
    | Before
    | Locked
    | Found(m: MappingId)
    | Stamped(m: MappingId)
    | Unlocked(m: MappingId)
    | Walking(targets: SetId, todo: set<Address>, sent: Sent)
    | Asking(targets: SetId, todo: set<Address>, sent: Sent, addr: Address, tcp: TargetId)
    | NotFound
    | Returned(sent: Sent)

  datatype Holder = Free | Forwarder | Other

  /** `table`, `targets` and `stamp` are the mapping objects; `contents` the set objects. */
  datatype State = State(
    lock: Holder,
    table: map<Address, MappingId>,
    targets: map<MappingId, SetId>,
    stamp: map<MappingId, Time>,
    contents: map<SetId, set<Address>>,
    tcp: map<Address, TargetId>,
    dead: set<TargetId>,
    stage: Stage)

  ghost predicate WellFormed(s: State) {
    && (forall a | a in s.table :: s.table[a] in s.targets)
    && (forall a, b | a in s.table && b in s.table && s.table[a] == s.table[b] :: a == b)
    && s.stamp.Keys == s.targets.Keys
    && (forall m | m in s.targets :: s.targets[m] in s.contents)
  }

  // ---------------------------------------------------------------- the other threads

  datatype Change =
    | Acquire
    | Release
      /** `self.mappings[key] = Mapping({target}, now)` */
    | Insert(key: Address, target: Address, now: Time, m: MappingId, ref: SetId)
      /** `self.mappings.pop(key, None)` */
    | Pop(key: Address)
      /** `mapping.targets = mapping.targets | {target}`, for the mapping found under `key` */
    | Add(key: Address, target: Address, ref: SetId)
      /** `mapping.targets = mapping.targets - {target}` */
    | Remove(key: Address, target: Address, ref: SetId)
    | Touch(key: Address, now: Time)
    | ConnectTcp(addr: Address, t: TargetId)
    | DropTcp(addr: Address)
    | Die(t: TargetId)

  /** Only the death of a target and taking the lock happen without holding it. */
  predicate Allowed(s: State, c: Change) {
    match c
    case Acquire => s.lock == Free
    case Die(_) => true
    case Insert(_, _, _, m, ref) => s.lock == Other && m !in s.targets && ref !in s.contents
    case Add(key, _, ref) => s.lock == Other && key in s.table && ref !in s.contents
    case Remove(key, _, ref) => s.lock == Other && key in s.table && ref !in s.contents
    case Touch(key, _) => s.lock == Other && key in s.table
    case _ => s.lock == Other
  }

  function Apply(s: State, c: Change): State
    requires WellFormed(s) && Allowed(s, c)
  {
    match c
    case Acquire => s.(lock := Other)
    case Release => s.(lock := Free)
    case Insert(key, target, now, m, ref) =>
      s.(table := s.table[key := m], targets := s.targets[m := ref], stamp := s.stamp[m := now],
         contents := s.contents[ref := {target}])
    case Pop(key) => s.(table := s.table - {key})
    case Add(key, target, ref) =>
      s.(targets := s.targets[s.table[key] := ref],
         contents := s.contents[ref := s.contents[s.targets[s.table[key]]] + {target}])
    case Remove(key, target, ref) =>
      s.(targets := s.targets[s.table[key] := ref],
         contents := s.contents[ref := s.contents[s.targets[s.table[key]]] - {target}])
    case Touch(key, now) => s.(stamp := s.stamp[s.table[key] := now])
    case ConnectTcp(a, t) => s.(tcp := s.tcp[a := t])
    case DropTcp(a) => s.(tcp := s.tcp - {a})
    case Die(t) => s.(dead := s.dead + {t})
  }

  // ---------------------------------------------------------------- the forwarder

  /** One step of `forward_packet(data, addr)`. The walk takes the addresses in any order. */
  ghost predicate Forwards(s: State, addr: Address, now: Time, s': State)
    requires WellFormed(s)
  {
    match s.stage
    case Before => s.lock == Free && s' == s.(lock := Forwarder, stage := Locked)
    case Locked =>
      s' == if addr in s.table then s.(stage := Found(s.table[addr])) else s.(lock := Free, stage := NotFound)
    case Found(m) => m in s.stamp && s' == s.(stamp := s.stamp[m := now], stage := Stamped(m))
    case Stamped(m) => s' == s.(lock := Free, stage := Unlocked(m))
    case Unlocked(m) =>
      m in s.targets && s' == s.(stage := Walking(s.targets[m], s.contents[s.targets[m]], NOTHING))
    case Walking(ref, todo, sent) =>
      if todo == {} then s' == s.(stage := Returned(sent))
      else
        exists a | a in todo ::
          s' == s.(stage :=
            if a !in s.tcp then Walking(ref, todo - {a}, sent.(inline := sent.inline + [a]))
            else Asking(ref, todo - {a}, sent, a, s.tcp[a]))
    case Asking(ref, todo, sent, a, t) =>
      s' == s.(stage := Walking(ref, todo,
        if t in s.dead then sent.(dropped := sent.dropped + [(a, t)]) else sent.(deferred := sent.deferred + [(a, t)])))
    case NotFound => false
    case Returned(_) => false
  }

  ghost predicate Step(s: State, addr: Address, s': State) {
    && WellFormed(s)
    && ((exists now: Time :: Forwards(s, addr, now, s')) || (exists c :: Allowed(s, c) && s' == Apply(s, c)))
  }

  /** A call of `forward_packet(data, addr)` with anything else going on meanwhile. */
  ghost predicate IsRun(run: seq<State>, addr: Address) {
    && run != []
    && WellFormed(run[0]) && run[0].stage == Before && run[0].lock != Forwarder
    && forall i | 0 <= i < |run| - 1 :: Step(run[i], addr, run[i + 1])
  }

  // ---------------------------------------------------------------- what holds during a run

  /** The targets that the table lists for `addr`. */
  ghost predicate Lists(s: State, addr: Address, value: set<Address>) {
    WellFormed(s) && addr in s.table && s.contents[s.targets[s.table[addr]]] == value
  }

  /** At some moment of the run the table listed exactly `value` for `addr`. */
  ghost predicate Listed(run: seq<State>, addr: Address, value: set<Address>) {
    exists i | 0 <= i < |run| :: Lists(run[i], addr, value)
  }

  function Firsts(pairs: seq<(Address, TargetId)>): seq<Address> {
    seq(|pairs|, i requires 0 <= i < |pairs| => pairs[i].0)
  }

  /** How often each address was served. */
  ghost function Served(sent: Sent): multiset<Address> {
    multiset(sent.inline) + multiset(Firsts(sent.deferred)) + multiset(Firsts(sent.dropped))
  }

  ghost predicate HadNoTcp(run: seq<State>, a: Address) {
    exists i | 0 <= i < |run| :: a !in run[i].tcp
  }

  ghost predicate HadTcp(run: seq<State>, a: Address, t: TargetId) {
    exists i | 0 <= i < |run| :: a in run[i].tcp && run[i].tcp[a] == t
  }

  ghost predicate WasAlive(run: seq<State>, t: TargetId) {
    exists i | 0 <= i < |run| :: t !in run[i].dead
  }

  /** Every decision rests on what was true when it was taken. */
  ghost predicate Justified(run: seq<State>, sent: Sent)
    requires run != []
  {
    && (forall a | a in sent.inline :: HadNoTcp(run, a))
    && (forall p | p in sent.deferred :: HadTcp(run, p.0, p.1) && WasAlive(run, p.1))
    && (forall p | p in sent.dropped :: HadTcp(run, p.0, p.1) && p.1 in run[|run| - 1].dead)
  }

  /** The targets of the mapping object `m` are, or were at some moment, those the table lists for `addr`. */
  ghost predicate MappingIsCurrent(run: seq<State>, addr: Address, m: MappingId)
    requires run != []
  {
    var s := run[|run| - 1];
    && m in s.targets && s.targets[m] in s.contents
    && (forall k | k in s.table && s.table[k] == m :: k == addr)
    && Listed(run, addr, s.contents[s.targets[m]])
  }

  ghost predicate WalkIsExact(run: seq<State>, addr: Address, ref: SetId, open: multiset<Address>, sent: Sent)
    requires run != []
  {
    var s := run[|run| - 1];
    && ref in s.contents
    && Listed(run, addr, s.contents[ref])
    && Served(sent) + open == multiset(s.contents[ref])
    && Justified(run, sent)
  }

  ghost predicate StageInv(run: seq<State>, addr: Address)
    requires run != []
  {
    var s := run[|run| - 1];
    match s.stage
    case Before => s.lock != Forwarder
    case Locked => s.lock == Forwarder
    case Found(m) => s.lock == Forwarder && addr in s.table && s.table[addr] == m && MappingIsCurrent(run, addr, m)
    case Stamped(m) => s.lock == Forwarder && addr in s.table && s.table[addr] == m && MappingIsCurrent(run, addr, m)
    case Unlocked(m) => s.lock != Forwarder && MappingIsCurrent(run, addr, m)
    case Walking(ref, todo, sent) => s.lock != Forwarder && WalkIsExact(run, addr, ref, multiset(todo), sent)
    case Asking(ref, todo, sent, a, t) =>
      s.lock != Forwarder && WalkIsExact(run, addr, ref, multiset(todo) + multiset{a}, sent) && HadTcp(run, a, t)
    case NotFound => s.lock != Forwarder && exists i | 0 <= i < |run| :: addr !in run[i].table
    case Returned(sent) =>
      && s.lock != Forwarder
      && Justified(run, sent)
      && exists value :: Listed(run, addr, value) && Served(sent) == multiset(value)
  }

  // ---------------------------------------------------------------- proofs

  lemma ApplyKeepsWellFormed(s: State, c: Change)
    requires WellFormed(s) && Allowed(s, c)
    ensures WellFormed(Apply(s, c))
  {
  }

  lemma ForwardingChangesLittle(s: State, addr: Address, now: Time, s': State)
    requires WellFormed(s) && Forwards(s, addr, now, s')
    ensures s'.stamp.Keys == s.stamp.Keys
    ensures s' == s.(lock := s'.lock, stage := s'.stage, stamp := s'.stamp)
  {
    if s.stage.Found? {
      assert s'.stamp == s.stamp[s.stage.m := now];
    } else {
      assert s'.stamp == s.stamp;
    }
  }

  lemma ForwardingKeepsWellFormed(s: State, addr: Address, now: Time, s': State)
    requires WellFormed(s) && Forwards(s, addr, now, s')
    ensures WellFormed(s')
    ensures s'.table == s.table && s'.targets == s.targets && s'.contents == s.contents
    ensures s'.tcp == s.tcp && s'.dead == s.dead
  {
    hide Forwards;
    ForwardingChangesLittle(s, addr, now, s');
  }

  // What was seen during a run has also been seen when the run goes on.

  lemma StillListed(run: seq<State>, addr: Address, value: set<Address>, s': State)
    requires Listed(run, addr, value) || Lists(s', addr, value)
    ensures Listed(run + [s'], addr, value)
  {
    var longer := run + [s'];
    if i :| 0 <= i < |run| && Lists(run[i], addr, value) {
      assert Lists(longer[i], addr, value);
    } else {
      assert Lists(longer[|run|], addr, value);
    }
  }

  lemma StillHadTcp(run: seq<State>, a: Address, t: TargetId, s': State)
    requires HadTcp(run, a, t)
    ensures HadTcp(run + [s'], a, t)
  {
    var i :| 0 <= i < |run| && a in run[i].tcp && run[i].tcp[a] == t;
    assert (run + [s'])[i] == run[i];
  }

  lemma StillJustified(run: seq<State>, s': State, sent: Sent)
    requires run != [] && Justified(run, sent) && run[|run| - 1].dead <= s'.dead
    ensures Justified(run + [s'], sent)
  {
    var longer := run + [s'];
    forall a | a in sent.inline ensures HadNoTcp(longer, a) {
      var i :| 0 <= i < |run| && a !in run[i].tcp;
      assert longer[i] == run[i];
    }
    forall p | p in sent.deferred ensures HadTcp(longer, p.0, p.1) && WasAlive(longer, p.1) {
      StillHadTcp(run, p.0, p.1, s');
      var i :| 0 <= i < |run| && p.1 !in run[i].dead;
      assert longer[i] == run[i];
    }
    forall p | p in sent.dropped ensures HadTcp(longer, p.0, p.1) {
      StillHadTcp(run, p.0, p.1, s');
    }
  }

  /**
   * Another thread changes the targets only of a mapping that the table holds. So a mapping
   * that has left the table keeps the targets it had when it was last listed.
   */
  lemma ChangeKeepsMapping(run: seq<State>, addr: Address, m: MappingId, c: Change)
    requires run != [] && MappingIsCurrent(run, addr, m)
    requires WellFormed(run[|run| - 1]) && Allowed(run[|run| - 1], c)
    ensures MappingIsCurrent(run + [Apply(run[|run| - 1], c)], addr, m)
  {
    hide Listed;
    var s := run[|run| - 1];
    var s' := Apply(s, c);
    ApplyKeepsWellFormed(s, c);
    var value := s'.contents[s'.targets[m]];
    assert Listed(run, addr, value) || Lists(s', addr, value);
    StillListed(run, addr, value, s');
  }

  /** Target sets are replaced, never changed, so the walk sees one and the same set. */
  lemma ChangeKeepsWalk(run: seq<State>, addr: Address, ref: SetId, open: multiset<Address>, sent: Sent, c: Change)
    requires run != [] && WalkIsExact(run, addr, ref, open, sent)
    requires WellFormed(run[|run| - 1]) && Allowed(run[|run| - 1], c)
    ensures WalkIsExact(run + [Apply(run[|run| - 1], c)], addr, ref, open, sent)
  {
    hide Listed, Justified, Served;
    var s := run[|run| - 1];
    var s' := Apply(s, c);
    assert s'.contents[ref] == s.contents[ref] && s.dead <= s'.dead;
    StillListed(run, addr, s.contents[ref], s');
    StillJustified(run, s', sent);
  }

  lemma ChangeKeepsStage(run: seq<State>, addr: Address, c: Change)
    requires run != [] && StageInv(run, addr)
    requires WellFormed(run[|run| - 1]) && Allowed(run[|run| - 1], c)
    ensures StageInv(run + [Apply(run[|run| - 1], c)], addr)
  {
    hide MappingIsCurrent, WalkIsExact, Listed, Justified, Served;
    var s := run[|run| - 1];
    var s' := Apply(s, c);
    var longer := run + [s'];
    match s.stage
    case Before =>
    case Locked =>
    case Found(m) => ChangeKeepsMapping(run, addr, m, c);
    case Stamped(m) => ChangeKeepsMapping(run, addr, m, c);
    case Unlocked(m) => ChangeKeepsMapping(run, addr, m, c);
    case Walking(ref, todo, sent) => ChangeKeepsWalk(run, addr, ref, multiset(todo), sent, c);
    case Asking(ref, todo, sent, a, t) =>
      ChangeKeepsWalk(run, addr, ref, multiset(todo) + multiset{a}, sent, c);
      StillHadTcp(run, a, t, s');
    case NotFound =>
      var i :| 0 <= i < |run| && addr !in run[i].table;
      assert longer[i] == run[i];
    case Returned(sent) =>
      var value :| Listed(run, addr, value) && Served(sent) == multiset(value);
      StillListed(run, addr, value, s');
      StillJustified(run, s', sent);
  }

  lemma FirstsOfMore(pairs: seq<(Address, TargetId)>, a: Address, t: TargetId)
    ensures multiset(Firsts(pairs + [(a, t)])) == multiset(Firsts(pairs)) + multiset{a}
  {
    assert Firsts(pairs + [(a, t)]) == Firsts(pairs) + [a];
  }

  lemma FindingIsCurrent(run: seq<State>, addr: Address, s': State)
    requires run != [] && WellFormed(s') && addr in s'.table
    ensures MappingIsCurrent(run + [s'], addr, s'.table[addr])
  {
    assert Lists(s', addr, s'.contents[s'.targets[s'.table[addr]]]);
    StillListed(run, addr, s'.contents[s'.targets[s'.table[addr]]], s');
  }

  lemma SendingKeepsWalk(run: seq<State>, addr: Address, ref: SetId, todo: set<Address>, sent: Sent, a: Address,
      s': State)
    requires run != [] && WalkIsExact(run, addr, ref, multiset(todo), sent) && a in todo && a !in s'.tcp
    requires var s := run[|run| - 1]; s'.contents == s.contents && s'.tcp == s.tcp && s'.dead == s.dead
    ensures WalkIsExact(run + [s'], addr, ref, multiset(todo - {a}), sent.(inline := sent.inline + [a]))
  {
    hide Listed, HadTcp, WasAlive, Firsts;
    var longer := run + [s'];
    assert multiset(todo) == multiset(todo - {a}) + multiset{a};
    assert longer[|run|] == s';
    StillListed(run, addr, s'.contents[ref], s');
    StillJustified(run, s', sent);
  }

  lemma AskingKeepsWalk(run: seq<State>, addr: Address, ref: SetId, todo: set<Address>, sent: Sent, a: Address,
      s': State)
    requires run != [] && WalkIsExact(run, addr, ref, multiset(todo), sent) && a in todo && a in s'.tcp
    requires var s := run[|run| - 1]; s'.contents == s.contents && s'.tcp == s.tcp && s'.dead == s.dead
    ensures WalkIsExact(run + [s'], addr, ref, multiset(todo - {a}) + multiset{a}, sent)
              && HadTcp(run + [s'], a, s'.tcp[a])
  {
    hide Listed, Justified, Served;
    assert multiset(todo) == multiset(todo - {a}) + multiset{a};
    assert (run + [s'])[|run|] == s';
    StillListed(run, addr, s'.contents[ref], s');
    StillJustified(run, s', sent);
  }

  lemma AnsweringKeepsWalk(run: seq<State>, addr: Address, ref: SetId, todo: set<Address>, sent: Sent, a: Address,
      t: TargetId, s': State)
    requires run != [] && WalkIsExact(run, addr, ref, multiset(todo) + multiset{a}, sent) && HadTcp(run, a, t)
    requires var s := run[|run| - 1]; s'.contents == s.contents && s'.tcp == s.tcp && s'.dead == s.dead
    ensures t in s'.dead ==>
              WalkIsExact(run + [s'], addr, ref, multiset(todo), sent.(dropped := sent.dropped + [(a, t)]))
    ensures t !in s'.dead ==>
              WalkIsExact(run + [s'], addr, ref, multiset(todo), sent.(deferred := sent.deferred + [(a, t)]))
  {
    hide Listed, HadTcp, HadNoTcp, Firsts;
    var longer := run + [s'];
    assert longer[|run|] == s';
    StillListed(run, addr, s'.contents[ref], s');
    StillJustified(run, s', sent);
    StillHadTcp(run, a, t, s');
    FirstsOfMore(sent.deferred, a, t);
    FirstsOfMore(sent.dropped, a, t);
  }

  lemma ForwardingKeepsStage(run: seq<State>, addr: Address, now: Time, s': State)
    requires run != [] && StageInv(run, addr)
    requires WellFormed(run[|run| - 1]) && Forwards(run[|run| - 1], addr, now, s')
    ensures StageInv(run + [s'], addr)
  {
    hide WalkIsExact, Listed, Justified, Served, HadTcp, Lists;
    var s := run[|run| - 1];
    var longer := run + [s'];
    ForwardingKeepsWellFormed(s, addr, now, s');
    assert longer[|run|] == s';
    match s.stage
    case Before =>
    case Locked =>
      if addr in s.table {
        FindingIsCurrent(run, addr, s');
      }
    case Found(m) => FindingIsCurrent(run, addr, s');
    case Stamped(m) => FindingIsCurrent(run, addr, s');
    case Unlocked(m) => StartingWalk(run, addr, m, s');
    case Walking(ref, todo, sent) =>
      if todo == {} {
        FinishingWalk(run, addr, ref, sent, s');
      } else {
        var a :| a in todo &&
          s' == s.(stage :=
            if a !in s.tcp then Walking(ref, todo - {a}, sent.(inline := sent.inline + [a]))
            else Asking(ref, todo - {a}, sent, a, s.tcp[a]));
        if a in s.tcp {
          AskingKeepsWalk(run, addr, ref, todo, sent, a, s');
        } else {
          SendingKeepsWalk(run, addr, ref, todo, sent, a, s');
        }
      }
    case Asking(ref, todo, sent, a, t) => AnsweringKeepsWalk(run, addr, ref, todo, sent, a, t, s');
  }

  lemma StartingWalk(run: seq<State>, addr: Address, m: MappingId, s': State)
    requires run != [] && MappingIsCurrent(run, addr, m)
    requires var s := run[|run| - 1]; s'.contents == s.contents && s'.targets == s.targets
    ensures WalkIsExact(run + [s'], addr, s'.targets[m], multiset(s'.contents[s'.targets[m]]), NOTHING)
  {
    hide Listed;
    StillListed(run, addr, s'.contents[s'.targets[m]], s');
  }

  lemma FinishingWalk(run: seq<State>, addr: Address, ref: SetId, sent: Sent, s': State)
    requires run != [] && WalkIsExact(run, addr, ref, multiset({}), sent)
    requires var s := run[|run| - 1]; s'.contents == s.contents && s'.dead == s.dead
    ensures Justified(run + [s'], sent)
    ensures exists value :: Listed(run + [s'], addr, value) && Served(sent) == multiset(value)
  {
    hide Listed, Justified, Served;
    StillListed(run, addr, s'.contents[ref], s');
    StillJustified(run, s', sent);
    assert Served(sent) == multiset(s'.contents[ref]);
  }

  lemma {:induction false} AlwaysConsistent(run: seq<State>, addr: Address)
    requires IsRun(run, addr)
    ensures WellFormed(run[|run| - 1]) && StageInv(run, addr)
  {
    hide WellFormed, StageInv, Forwards, Apply, Allowed;
    if |run| == 1 {
      Starts(run, addr);
    } else {
      var before := run[..|run| - 1];
      AlwaysConsistent(before, addr);
      var s, s' := before[|before| - 1], run[|run| - 1];
      assert Step(run[|run| - 2], addr, run[|run| - 2 + 1]);
      assert before + [s'] == run;
      if now: Time :| Forwards(s, addr, now, s') {
        ForwardingKeepsWellFormed(s, addr, now, s');
        ForwardingKeepsStage(before, addr, now, s');
      } else {
        var c :| Allowed(s, c) && s' == Apply(s, c);
        ApplyKeepsWellFormed(s, c);
        ChangeKeepsStage(before, addr, c);
      }
    }
  }

  lemma Starts(run: seq<State>, addr: Address)
    requires |run| == 1 && run[0].stage == Before && run[0].lock != Forwarder
    ensures StageInv(run, addr)
  {
  }

  /**
   * However the call is interleaved with other threads: there is one moment during the call
   * such that each address the table listed then, and no other, was served exactly once.
   * Addresses without a TCP target got the packet at once, those with a live target are handed
   * on, and only those whose target had died are left out.
   */
  lemma ForwardingIsASnapshot(run: seq<State>, addr: Address) returns (value: set<Address>)
    requires IsRun(run, addr) && run[|run| - 1].stage.Returned?
    ensures Listed(run, addr, value)
    ensures Served(run[|run| - 1].stage.sent) == multiset(value)
    ensures Justified(run, run[|run| - 1].stage.sent)
  {
    hide WellFormed, Listed, Justified, Served;
    AlwaysConsistent(run, addr);
    value :| Listed(run, addr, value) && Served(run[|run| - 1].stage.sent) == multiset(value);
  }

  /**
   * The mapping that is stamped is the one the table holds at that moment, and the lock is held
   * from the lookup to the stamp and not beyond.
   */
  lemma StampedUnderLock(run: seq<State>, addr: Address)
    requires IsRun(run, addr)
    ensures var s := run[|run| - 1];
            && (s.stage.Found? || s.stage.Stamped? ==> addr in s.table && s.table[addr] == s.stage.m)
            && (s.lock == Forwarder <==> s.stage.Locked? || s.stage.Found? || s.stage.Stamped?)
  {
    hide MappingIsCurrent, WalkIsExact, Listed, Justified, Served, HadTcp;
    AlwaysConsistent(run, addr);
  }

  /** The call reports a missing mapping only if the table had none at some moment of the call. */
  lemma NotFoundIsHonest(run: seq<State>, addr: Address)
    requires IsRun(run, addr) && run[|run| - 1].stage == NotFound
    ensures exists i | 0 <= i < |run| :: addr !in run[i].table
  {
    AlwaysConsistent(run, addr);
  }
}
