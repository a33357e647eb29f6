/** The locks of the relay: every method as a program over the locks it takes, and no deadlock. */
module RelayLocks {
  import opened LockPrograms

  // ---------------------------------------------------------------- the methods

  const UNDER_MAPPING := With(MappingLock, Skip)
  const MAYBE_MAPPING := Either(Skip, UNDER_MAPPING)

  /** `_register_spectator` */
  const JOIN_AS_SPECTATOR := Then(MAYBE_MAPPING, Either(Skip, Then(MAYBE_MAPPING, Send)))

  /** A ready session: the table, PeerInfo to the peers, all spectators, PeerInfo to them. */
  const CONNECT_PEERS := Then(UNDER_MAPPING, Then(Repeat(Send), Then(Repeat(MAYBE_MAPPING), Repeat(Send))))

  const REGISTER_AS_PEER := Then(Repeat(MAYBE_MAPPING), Either(Send, Either(Skip, CONNECT_PEERS)))

  const REGISTER_PEER :=
    Either(Skip, With(SessionLock, Either(REGISTER_AS_PEER, Either(Send, JOIN_AS_SPECTATOR))))

  const REGISTER_TCP_PEER := Then(UNDER_MAPPING, REGISTER_PEER)

  const HEARTBEAT := With(SessionLock, Skip)

  const SESSION_PEERS := With(SessionLock, Skip)

  /** The packet is sent after the lock is released; TCP sends are handed to other threads. */
  const FORWARD_PACKET := UNDER_MAPPING

  const CLEANUP_ROLES := Then(Repeat(Repeat(UNDER_MAPPING)), Repeat(Repeat(UNDER_MAPPING)))

  const CLEANUP_SPECTATORS := Repeat(Repeat(Either(Skip, Then(UNDER_MAPPING, MAYBE_MAPPING))))

  const CLEANUP :=
    Then(UNDER_MAPPING,
         With(SessionLock, Then(CLEANUP_ROLES, Then(CLEANUP_SPECTATORS, Repeat(Repeat(UNDER_MAPPING))))))

  const STATS := With(SessionLock, Repeat(Then(UNDER_MAPPING, Repeat(UNDER_MAPPING))))

  /** Everything a thread of the relay server may be started to do. */
  const METHODS := {REGISTER_PEER, REGISTER_TCP_PEER, HEARTBEAT, SESSION_PEERS, FORWARD_PACKET, Send, CLEANUP, STATS}

  /** Which locks the methods take, and inside which others */
  lemma LocksOfEachMethod()
    ensures Nesting(REGISTER_PEER, {}) == {({}, Session), ({Session}, Mapping), ({Session}, Target)}
    ensures Nesting(REGISTER_TCP_PEER, {}) == Nesting(REGISTER_PEER, {}) + {({}, Mapping)}
    ensures Nesting(HEARTBEAT, {}) == Nesting(SESSION_PEERS, {}) == {({}, Session)}
    ensures Nesting(FORWARD_PACKET, {}) == {({}, Mapping)} && Nesting(Send, {}) == {({}, Target)}
    ensures Nesting(CLEANUP, {}) == {({}, Mapping), ({}, Session), ({Session}, Mapping)}
    ensures Nesting(STATS, {}) == {({}, Session), ({Session}, Mapping)}
  {
    assert {} + {Session} == {Session} && {} + {Mapping} == {Mapping};
    assert Nesting(CONNECT_PEERS, {Session}) == {({Session}, Mapping), ({Session}, Target)};
    assert Nesting(REGISTER_AS_PEER, {Session}) == {({Session}, Mapping), ({Session}, Target)};
    assert Nesting(JOIN_AS_SPECTATOR, {Session}) == {({Session}, Mapping), ({Session}, Target)};
    assert Nesting(CLEANUP_ROLES, {Session}) == {({Session}, Mapping)};
    assert Nesting(CLEANUP_SPECTATORS, {Session}) == {({Session}, Mapping)};
  }

  lemma RegistrationIsOrdered()
    ensures Ordered(REGISTER_PEER, -1) && Ordered(REGISTER_TCP_PEER, -1)
  {
    assert Ordered(CONNECT_PEERS, 0);
    assert Ordered(REGISTER_AS_PEER, 0);
    assert Ordered(JOIN_AS_SPECTATOR, 0);
  }

  lemma CleanupIsOrdered()
    ensures Ordered(CLEANUP, -1)
  {
    assert Ordered(CLEANUP_ROLES, 0);
    assert Ordered(CLEANUP_SPECTATORS, 0);
  }

  lemma OthersAreOrdered()
    ensures forall c | c in {HEARTBEAT, SESSION_PEERS, FORWARD_PACKET, Send, STATS} :: Ordered(c, -1)
  {
  }

  /** Every method, read as a program text, follows the documented order. */
  lemma MethodsAreOrdered(c: Code)
    requires c in METHODS
    ensures Ordered(c, -1)
  {
    hide Ordered;
    RegistrationIsOrdered();
    CleanupIsOrdered();
    OthersAreOrdered();
  }

  // ---------------------------------------------------------------- runs

  /**
   * In every run: a thread about to take a lock holds only locks that come before it. So the
   * session lock is never taken under the mapping lock, a target's lock is taken last, and no
   * thread waits for a lock it holds itself.
   */
  lemma LocksAreTakenInOrder(states: seq<State>, t: nat, wanted: Lock, held: Lock)
    requires IsRun(METHODS, states)
    requires var s := states[|states| - 1]; t < |s.threads| && Wants(s.threads[t], wanted)
    requires var s := states[|states| - 1]; held in s.holder && s.holder[held] == t
    ensures Rank(held) < Rank(wanted)
  {
    AllOrdered();
    AlwaysDisciplined(METHODS, states);
    var th := states[|states| - 1].threads[t];
    HeldIsBelowFloor(th[1..], held);
  }

  lemma AllOrdered()
    ensures forall c | c in METHODS :: Ordered(c, -1)
  {
    hide Ordered, METHODS;
    forall c | c in METHODS ensures Ordered(c, -1) {
      MethodsAreOrdered(c);
    }
  }

  /**
   * No deadlock: from every state that any number of threads can reach there is a way to go
   * on, with the threads already running, until every one of them has finished.
   */
  lemma EveryThreadCanFinish(states: seq<State>) returns (path: seq<State>)
    requires IsRun(METHODS, states)
    ensures IsPath(states[|states| - 1], path) && AllDone(path[|path| - 1])
  {
    AllOrdered();
    AlwaysDisciplined(METHODS, states);
    path := FinishFrom(states[|states| - 1]);
  }
}
