/**
 * Whatever addresses the peers use and however their announcements, packets and
 * cleanup passes follow each other: the table only connects addresses that one
 * session accepted for one port type, streamer with viewer or streamer to spectator.
 */
module RelaySafety {
  import opened RelayTypes
  import opened RelaySpec
  import opened SpectatorGrouping

  /** `sid` accepted `a` and `b` on port `p` as partners, with `a` entitled to send to `b`. */
  ghost predicate Paired(log: set<Accepted>, sid: Sid, p: PortType, a: Address, b: Address) {
    || (Accepted(sid, Streamer, p, a) in log && Accepted(sid, Viewer, p, b) in log)
    || (Accepted(sid, Viewer, p, a) in log && Accepted(sid, Streamer, p, b) in log)
    || (Accepted(sid, Streamer, p, a) in log && Accepted(sid, Spectator, p, b) in log)
  }

  ghost predicate Linked(log: set<Accepted>, a: Address, b: Address) {
    exists sid, p :: Paired(log, sid, p, a, b)
  }

  /** Some session accepted `a` as streamer or viewer. */
  ghost predicate MaySend(log: set<Accepted>, a: Address) {
    exists sid, p :: Accepted(sid, Streamer, p, a) in log || Accepted(sid, Viewer, p, a) in log
  }

  ghost predicate TableSafe(mappings: map<Address, Mapping>, log: set<Accepted>) {
    forall a | a in mappings :: MaySend(log, a) && forall b | b in mappings[a].targets :: Linked(log, a, b)
  }

  ghost predicate PortsLogged(ports: Ports, sid: Sid, role: Role, log: set<Accepted>) {
    forall p | p in ports :: Accepted(sid, role, p, ports[p].addr) in log
  }

  ghost predicate EntriesLogged(spectators: seq<Entry>, sid: Sid, log: set<Accepted>) {
    forall i | 0 <= i < |spectators| :: PortsLogged(spectators[i].ports, sid, Spectator, log)
  }

  ghost predicate SessionLogged(s: Session, sid: Sid, log: set<Accepted>) {
    && PortsLogged(s.streamer, sid, Streamer, log)
    && PortsLogged(s.viewer, sid, Viewer, log)
    && EntriesLogged(s.spectators, sid, log)
  }

  ghost predicate AllLogged(sessions: map<Sid, Session>, log: set<Accepted>) {
    forall sid | sid in sessions :: SessionLogged(sessions[sid], sid, log)
  }

  ghost predicate Safe(st: Relay, log: set<Accepted>) {
    TableSafe(st.mappings, log) && AllLogged(st.sessions, log)
  }

  // ---------------------------------------------------------------- the table

  /** A longer log keeps everything justified. */
  lemma LogGrows(st: Relay, log: set<Accepted>, log': set<Accepted>)
    requires Safe(st, log) && log <= log'
    ensures Safe(st, log')
  {
    forall a | a in st.mappings ensures MaySend(log', a) && forall b | b in st.mappings[a].targets ::
        Linked(log', a, b) {
      var sid, p :| Accepted(sid, Streamer, p, a) in log || Accepted(sid, Viewer, p, a) in log;
      assert Accepted(sid, Streamer, p, a) in log' || Accepted(sid, Viewer, p, a) in log';
      forall b | b in st.mappings[a].targets ensures Linked(log', a, b) {
        assert Linked(log, a, b);
        var sid, p :| Paired(log, sid, p, a, b);
        assert Paired(log', sid, p, a, b);
      }
    }
  }

  /** Dropping keys and targets keeps the table safe. */
  lemma ShrinkingIsSafe(before: map<Address, Mapping>, after: map<Address, Mapping>, log: set<Accepted>)
    requires TableSafe(before, log)
    requires forall a | a in after :: a in before && after[a].targets <= before[a].targets
    ensures TableSafe(after, log)
  {
  }

  lemma PairIsSafe(s: Session, sid: Sid, p: PortType, log: set<Accepted>)
    requires SessionLogged(s, sid, log) && p in s.streamer && p in s.viewer
    ensures var a, b := s.streamer[p].addr, s.viewer[p].addr;
            MaySend(log, a) && MaySend(log, b) && Linked(log, a, b) && Linked(log, b, a)
  {
    assert Accepted(sid, Streamer, p, s.streamer[p].addr) in log;
    assert Accepted(sid, Viewer, p, s.viewer[p].addr) in log;
    assert Paired(log, sid, p, s.streamer[p].addr, s.viewer[p].addr);
    assert Paired(log, sid, p, s.viewer[p].addr, s.streamer[p].addr);
  }

  lemma NewMappingsAreSafe(s: Session, sid: Sid, now: Time, log: set<Accepted>)
    requires SessionLogged(s, sid, log) && s.IsReady()
    ensures TableSafe(NewMappings(s, now), log)
  {
    PairIsSafe(s, sid, Video, log);
    PairIsSafe(s, sid, Control, log);
  }

  lemma FoundTargetIsSafe(s: Session, sid: Sid, p: PortType, addrs: set<Address>, b: Address, log: set<Accepted>)
    requires SessionLogged(s, sid, log) && p in s.streamer && b in FoundTargets(s, p, addrs)
    ensures MaySend(log, s.streamer[p].addr) && Linked(log, s.streamer[p].addr, b)
  {
    var a :| a in addrs && FindByAddress(s.spectators, a).Some?
      && s.spectators[FindByAddress(s.spectators, a).value].IsComplete()
      && b == s.spectators[FindByAddress(s.spectators, a).value].PortAddr(p);
    var e := s.spectators[FindByAddress(s.spectators, a).value];
    assert p in e.ports && e.ports[p].addr == b;
    assert Accepted(sid, Spectator, p, b) in log;
    assert Accepted(sid, Streamer, p, s.streamer[p].addr) in log;
    assert Paired(log, sid, p, s.streamer[p].addr, b);
  }

  lemma AttachIsSafe(mappings: map<Address, Mapping>, s: Session, sid: Sid, addrs: set<Address>, now: Time,
      log: set<Accepted>)
    requires TableSafe(mappings, log) && SessionLogged(s, sid, log)
    ensures TableSafe(AttachSpectators(mappings, s, addrs, now), log)
  {
    hide FoundTargets, SessionLogged, MaySend, Linked;
    var after := AttachSpectators(mappings, s, addrs, now);
    forall a, b | a in after && (a !in mappings || after[a] != mappings[a]) && b in AddedTargets(s, a, addrs)
      ensures MaySend(log, a) && Linked(log, a, b)
    {
      if a == s.streamer[Video].addr && b in FoundTargets(s, Video, addrs) {
        FoundTargetIsSafe(s, sid, Video, addrs, b, log);
      } else {
        FoundTargetIsSafe(s, sid, Control, addrs, b, log);
      }
    }
    forall a | a in after
      ensures MaySend(log, a) && forall b | b in after[a].targets :: Linked(log, a, b)
    {
      var added := if Full(s.streamer) then AddedTargets(s, a, addrs) else {};
      if added != {} {
        var b :| b in added;
        assert a !in mappings ==> MaySend(log, a);
      }
    }
  }

  lemma UpdateIsSafe(st: Relay, sid: Sid, now: Time, log: set<Accepted>)
    requires Safe(st, log) && sid in st.sessions && st.sessions[sid].IsReady()
    ensures Safe(UpdateMappings(st, sid, now), log)
  {
    NewMappingsAreSafe(st.sessions[sid], sid, now, log);
    hide NewMappings, Linked, MaySend, SessionLogged, Overwritten, Without;
  }

  // ---------------------------------------------------------------- every step

  lemma RemoveSpectatorIsSafe(st: Relay, addr: Address, log: set<Accepted>)
    requires Safe(st, log)
    ensures Safe(RemoveSpectator(st, addr), log)
  {
    hide Linked, MaySend, PortsLogged;
    var after := RemoveSpectator(st, addr);
    ShrinkingIsSafe(st.mappings, after.mappings, log);
  }

  lemma RegisterPeerIsSafe(st: Relay, sid: Sid, role: Role, port: PortType, addr: Address, now: Time,
      log: set<Accepted>)
    requires Safe(st, log) && role != Spectator && Accepted(sid, role, port, addr) in log
    ensures Safe(RegisterPeer(st, sid, role, port, addr, now), log)
  {
    hide AttachSpectators, UpdateMappings, TableSafe, CompleteAddresses;
    var st1 := SetDefault(st, sid, now);
    var peer := PeerEntry(addr, if addr in st.tcp then Tcp else Udp, now);
    var s := RegisterPeerPort(st1.sessions[sid], role, port, peer);
    var st2 := st1.(sessions := st1.sessions[sid := s]);
    assert SessionLogged(s, sid, log);
    assert Safe(st2, log);
    if s.IsReady() {
      UpdateIsSafe(st2, sid, now, log);
      AttachIsSafe(UpdateMappings(st2, sid, now).mappings, s, sid, CompleteAddresses(s), now, log);
    }
  }

  lemma JoiningIsLogged(st: Relay, sid: Sid, port: PortType, addr: Address, now: Time, log: set<Accepted>)
    requires Safe(st, log) && Accepted(sid, Spectator, port, addr) in log
    ensures SessionLogged(SpectatorJoins(st, sid, port, addr, now).0, sid, log)
  {
    hide SpectatorSlot, TableSafe, Replaced;
    var before := SetDefault(st, sid, now).sessions[sid];
    assert SessionLogged(before, sid, log);
  }

  lemma RegisterSpectatorIsSafe(st: Relay, sid: Sid, port: PortType, addr: Address, now: Time, log: set<Accepted>)
    requires Safe(st, log) && Accepted(sid, Spectator, port, addr) in log
    ensures Safe(RegisterSpectator(st, sid, port, addr, now), log)
  {
    hide AttachSpectators, IndexEntry, SpectatorJoins, SessionLogged, MaySend, Linked;
    JoiningIsLogged(st, sid, port, addr, now, log);
    var (s, gone) := SpectatorJoins(st, sid, port, addr, now);
    var mappings := RemoveTargets(st.mappings, s.streamer, gone);
    ShrinkingIsSafe(st.mappings, mappings, log);
    AttachIsSafe(mappings, s, sid, {addr}, now, log);
  }

  lemma CleanupIsSafe(st: Relay, now: Time, timeout: Time, alive: set<nat>, log: set<Accepted>)
    requires Safe(st, log)
    ensures Safe(Cleanup(st, now, timeout, alive), log)
  {
    hide Linked, MaySend, PortsLogged, ExpiredPorts, ExpiredAddresses, InactiveAddresses, Without;
    var st1 := DropDeadTargets(st, alive);
    var st2 := ExpireRoles(st1, now, timeout);
    var st3 := DropInactive(st2, now, alive);
    ShrinkingIsSafe(st.mappings, st2.mappings, log);
    ShrinkingIsSafe(st2.mappings, st3.mappings, log);
    forall sid | sid in st2.sessions ensures SessionLogged(st2.sessions[sid], sid, log) {
      assert SessionLogged(st.sessions[sid], sid, log);
      assert PortsLogged(map[], sid, Streamer, log) && PortsLogged(map[], sid, Viewer, log) by {
        EmptyPortsLogged(sid, log);
      }
    }
    forall sid | sid in st3.sessions ensures SessionLogged(st3.sessions[sid], sid, log) {
      assert SessionLogged(st2.sessions[sid], sid, log);
      forall k | 0 <= k < |KeepActive(st2, st2.sessions[sid].spectators, now, alive)|
        ensures PortsLogged(KeepActive(st2, st2.sessions[sid].spectators, now, alive)[k].ports, sid, Spectator, log)
      {
        var j := KeptFrom(st2, st2.sessions[sid].spectators, now, alive, k);
      }
    }
  }

  lemma EmptyPortsLogged(sid: Sid, log: set<Accepted>)
    ensures PortsLogged(map[], sid, Streamer, log) && PortsLogged(map[], sid, Viewer, log)
  {
  }

  lemma StepIsSafe(st: Relay, ev: Event, log: set<Accepted>)
    requires Safe(st, log)
    ensures Safe(Step(st, ev), log + LogOf(ev))
  {
    var all := log + LogOf(ev);
    LogGrows(st, log, all);
    match ev
    case Announced(role, port, sid, addr, store, now) =>
      RemoveSpectatorIsSafe(st, addr, all);
      var removed := RemoveSpectator(st, addr);
      match Accepts(role, port, sid, store) {
        case None =>
        case Some(Target(actual, Spectator, p)) => RegisterSpectatorIsSafe(st, actual, p, addr, now, all);
        case Some(Target(actual, r, p)) => RegisterPeerIsSafe(removed, actual, r, p, addr, now, all);
      }
    case TcpConnected(addr, target) =>
    case DataPacket(addr, now) =>
      ShrinkingIsSafe(st.mappings, Forward(st, addr, now).mappings, all);
    case StrayPacket(addr, now) =>
      HeartbeatIsSafe(st, addr, now, all);
    case CleanupPass(now, timeout, alive) => CleanupIsSafe(st, now, timeout, alive, all);
  }

  lemma HeartbeatIsSafe(st: Relay, addr: Address, now: Time, log: set<Accepted>)
    requires Safe(st, log)
    ensures Safe(Heartbeat(st, addr, now), log)
  {
    hide TableSafe, PortsLogged;
    var after := Heartbeat(st, addr, now);
    forall sid | sid in after.sessions ensures SessionLogged(after.sessions[sid], sid, log) {
      assert SessionLogged(st.sessions[sid], sid, log);
    }
  }

  lemma {:induction false} AlwaysSafe(events: seq<Event>)
    ensures Safe(Run(events), Log(events))
  {
    if events != [] {
      AlwaysSafe(events[..|events| - 1]);
      StepIsSafe(Run(events[..|events| - 1]), events[|events| - 1], Log(events[..|events| - 1]));
    }
  }

  /**
   * Safety over whole runs. If the table sends from `a` to `b`, then one session and one
   * port type accepted them as partners; and an address that was only ever accepted as
   * a spectator is never a source.
   */
  lemma TrafficStaysWithinOneSession(events: seq<Event>, a: Address)
    requires a in Run(events).mappings
    ensures MaySend(Log(events), a)
    ensures forall b | b in Run(events).mappings[a].targets :: Linked(Log(events), a, b)
  {
    AlwaysSafe(events);
  }

  /** Everything in the log was announced, and the store knew the session. */
  lemma {:induction false} LogIsAnnounced(events: seq<Event>, x: Accepted)
    requires x in Log(events)
    ensures exists i :: 0 <= i < |events| && events[i].Announced? && events[i].addr == x.addr
              && Accepts(events[i].role, events[i].port, events[i].sid, events[i].store) ==
                  Some(Target(x.sid, x.role, x.port))
  {
    var n := |events| - 1;
    if x in LogOf(events[n]) {
      assert Accepts(events[n].role, events[n].port, events[n].sid, events[n].store) ==
          Some(Target(x.sid, x.role, x.port));
    } else {
      LogIsAnnounced(events[..n], x);
    }
  }
}
