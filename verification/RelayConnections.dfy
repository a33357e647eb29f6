/**
 * The TCP connections of the relay: which ones it knows after any run. A cleanup pass forgets a
 * connection only if it is dead and its address has no mapping.
 */
module RelayConnections {
  import opened RelayTypes
  import opened RelaySpec

  /** The address has that connection. */
  predicate Connected(st: Relay, a: Address, target: nat) {
    a in st.tcp && st.tcp[a] == target
  }

  /** What a pass keeps: every live connection, and every connection of an address that sends. */
  lemma ConnectionsAfterCleanup(st: Relay, now: Time, timeout: Time, alive: set<nat>, a: Address, target: nat)
    ensures Connected(Cleanup(st, now, timeout, alive), a, target) <==>
              Connected(st, a, target) && (target in alive || a in st.mappings)
  {
    PassTouchesOnce(st, now, timeout, alive);
  }

  lemma PassTouchesOnce(st: Relay, now: Time, timeout: Time, alive: set<nat>)
    ensures Cleanup(st, now, timeout, alive).tcp == DropDeadTargets(st, alive).tcp
  {
    hide ExpireSession, ExpiredAddresses, KeepActive, InactiveAddresses, Without;
  }

  /** Step by step: a new connection replaces the old one, a pass forgets dead ones, nothing else matters. */
  lemma ConnectionsAfterStep(st: Relay, ev: Event, a: Address, target: nat)
    ensures Connected(Step(st, ev), a, target) <==>
              match ev
              case TcpConnected(addr, made) =>
                if addr == a then target == made else Connected(st, a, target)
              case CleanupPass(_, _, alive) => Connected(st, a, target) && (target in alive || a in st.mappings)
              case _ => Connected(st, a, target)
  {
    hide Cleanup, Connected, Announce, Heartbeat, Forward;
    match ev
    case Announced(role, port, sid, addr, store, now) =>
      AnnouncingKeepsConnections(st, role, port, sid, addr, store, now);
      SameConnections(st, Step(st, ev), a, target);
    case TcpConnected(addr, made) => OneMoreConnection(st, addr, made, a, target);
    case DataPacket(addr, now) =>
      ForwardingKeepsConnections(st, addr, now);
      SameConnections(st, Step(st, ev), a, target);
    case StrayPacket(addr, now) =>
      ForwardingKeepsConnections(st, addr, now);
      SameConnections(st, Step(st, ev), a, target);
    case CleanupPass(now, timeout, alive) => ConnectionsAfterCleanup(st, now, timeout, alive, a, target);
  }

  lemma SameConnections(st: Relay, after: Relay, a: Address, target: nat)
    requires after.tcp == st.tcp
    ensures Connected(after, a, target) <==> Connected(st, a, target)
  {
  }

  lemma OneMoreConnection(st: Relay, addr: Address, made: nat, a: Address, target: nat)
    ensures Connected(st.(tcp := st.tcp[addr := made]), a, target) <==>
              if addr == a then target == made else Connected(st, a, target)
  {
  }

  lemma ForwardingKeepsConnections(st: Relay, addr: Address, now: Time)
    ensures Forward(st, addr, now).tcp == st.tcp && Heartbeat(st, addr, now).tcp == st.tcp
  {
  }

  lemma AnnouncingKeepsConnections(
      st: Relay, role: string, port: string, sid: Sid, addr: Address, store: StoreAnswer, now: Time)
    ensures Announce(st, role, port, sid, addr, store, now).tcp == st.tcp
  {
    hide RegisterPeer, RegisterSpectator, RemoveSpectator, ParseRole, ParsePort;
    forall st1, sid, r, p | r != Spectator ensures RegisterPeer(st1, sid, r, p, addr, now).tcp == st1.tcp {
      RegisteringKeepsConnections(st1, sid, r, p, addr, now);
    }
    forall sid, p ensures RegisterSpectator(st, sid, p, addr, now).tcp == st.tcp {
      JoiningKeepsConnections(st, sid, p, addr, now);
    }
    LeavingKeepsConnections(st, addr);
  }

  lemma RegisteringKeepsConnections(st: Relay, sid: Sid, role: Role, port: PortType, addr: Address, now: Time)
    requires role != Spectator
    ensures RegisterPeer(st, sid, role, port, addr, now).tcp == st.tcp
  {
    hide NewMappings, KeepTimestamps, Overwritten, Without, AttachSpectators, CompleteAddresses;
  }

  lemma JoiningKeepsConnections(st: Relay, sid: Sid, port: PortType, addr: Address, now: Time)
    ensures RegisterSpectator(st, sid, port, addr, now).tcp == st.tcp
  {
    hide RegisterSpectatorPort, AttachSpectators, RemoveTargets;
  }

  lemma LeavingKeepsConnections(st: Relay, addr: Address)
    ensures RemoveSpectator(st, addr).tcp == st.tcp
  {
    hide RemoveTargets;
  }

  // ---------------------------------------------------------------- runs

  /** Step `k` opened the connection; up to `n` it was not replaced, and no pass found it dead and without a mapping. */
  ghost predicate OpenSince(events: seq<Event>, k: nat, n: nat, a: Address, target: nat) {
    && k < n <= |events| && events[k] == TcpConnected(a, target)
    && forall j | k < j < n :: Keeps(events, j, a, target)
  }

  ghost predicate Keeps(events: seq<Event>, j: nat, a: Address, target: nat)
    requires j < |events|
  {
    match events[j]
    case TcpConnected(addr, _) => addr != a
    case CleanupPass(_, _, alive) => target in alive || a in Run(events[..j]).mappings
    case _ => true
  }

  /**
   * In every run the relay knows a connection exactly if it was opened and not replaced since, and
   * at each pass since then it was alive or its address had a mapping. No live one is forgotten.
   */
  lemma {:induction false} ConnectionsInRuns(events: seq<Event>, n: nat, a: Address, target: nat)
    requires n <= |events|
    ensures Connected(Run(events[..n]), a, target) <==> exists k: nat :: OpenSince(events, k, n, a, target)
  {
    hide Connected, Step, Run, Keeps;
    if n > 0 {
      var m := n - 1;
      ConnectionsInRuns(events, m, a, target);
      RunOfMore(events, m);
      ConnectionsAfterStep(Run(events[..m]), events[m], a, target);
      KeepsMeans(events, m, a, target);
      hide OpenSince;
      OpenStep(events, m, m, a, target);
      if k: nat :| OpenSince(events, k, m, a, target) {
        OpenStep(events, k, m, a, target);
        assert Keeps(events, m, a, target) ==> OpenSince(events, k, n, a, target);
      }
      if k: nat :| OpenSince(events, k, n, a, target) {
        OpenStep(events, k, m, a, target);
        assert events[m] == TcpConnected(a, target) || OpenSince(events, k, m, a, target);
      }
    } else {
      NothingOpen(events, a, target);
    }
  }

  lemma RunOfMore(events: seq<Event>, m: nat)
    requires m < |events|
    ensures Run(events[..m + 1]) == Step(Run(events[..m]), events[m])
  {
    assert events[..m + 1][..m] == events[..m];
  }

  lemma KeepsMeans(events: seq<Event>, j: nat, a: Address, target: nat)
    requires j < |events|
    ensures Keeps(events, j, a, target) <==>
              match events[j]
              case TcpConnected(addr, _) => addr != a
              case CleanupPass(_, _, alive) => target in alive || a in Run(events[..j]).mappings
              case _ => true
  {
  }

  lemma OpenStep(events: seq<Event>, k: nat, m: nat, a: Address, target: nat)
    requires m < |events|
    ensures OpenSince(events, k, m + 1, a, target) <==>
              || (k == m && events[m] == TcpConnected(a, target))
              || (OpenSince(events, k, m, a, target) && Keeps(events, m, a, target))
  {
    hide Keeps;
  }

  lemma NothingOpen(events: seq<Event>, a: Address, target: nat)
    ensures !Connected(Run(events[..0]), a, target)
  {
    assert events[..0] == [];
  }
}
