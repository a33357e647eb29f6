/**
 * Keys of the forwarding table that no session owns: which events take the last owner away, which
 * give one back, and for every run exactly which keys are without an owner.
 */
module OwnerlessKeys {
  import opened RelayTypes
  import opened RelaySpec
  import opened RelayCleanup
  import opened RelayTable
  import opened RelayLeftovers

  ghost predicate HasOwner(st: Relay, a: Address) {
    exists t :: t in st.sessions && Owns(st.sessions[t], a)
  }

  /** A streamer or viewer is accepted. */
  predicate PeerAccepted(ev: Event) {
    ev.Announced?
    && var target := Accepts(ev.role, ev.port, ev.sid, ev.store);
       target.Some? && target.value.role != Spectator
  }

  function TargetOf(ev: Event): (target: Target)
    requires PeerAccepted(ev)
    ensures target.role != Spectator
  {
    Accepts(ev.role, ev.port, ev.sid, ev.store).value
  }

  /** The peer no longer spectates and is on record; the table is not yet rebuilt. */
  function OnRecord(st: Relay, ev: Event): Relay
    requires PeerAccepted(ev)
  {
    var target := TargetOf(ev);
    RecordPeer(RemoveSpectator(st, ev.addr), target.sid, target.role, target.port, ev.addr, ev.now)
  }

  /** The announcement takes the last owner of `a` away, and leaves the key. */
  ghost predicate Disowns(st: Relay, ev: Event, a: Address) {
    PeerAccepted(ev) && a in st.mappings && HasOwner(st, a)
    && var recorded, sid := OnRecord(st, ev), TargetOf(ev).sid;
       sid in recorded.sessions
       && var s := recorded.sessions[sid];
          && (s.IsReady() ==> a !in s.addresses)
          && forall t | t in recorded.sessions && Owns(recorded.sessions[t], a) ::
               s.IsReady() && t in Overwritten(recorded, sid)
  }

  /** The announcement makes `a` the address of a peer, or takes the key off the table. */
  ghost predicate Reclaims(st: Relay, ev: Event, a: Address) {
    PeerAccepted(ev)
    && var recorded, sid := OnRecord(st, ev), TargetOf(ev).sid;
       ev.addr == a
       || (sid in recorded.sessions && recorded.sessions[sid].IsReady() && a in recorded.sessions[sid].addresses)
  }

  // ---------------------------------------------------------------- a session that is not ready

  /** `a` is the peer under `r` and `p` of `t`. */
  predicate HasPort(st: Relay, t: Sid, r: Role, p: PortType, a: Address) {
    t in st.sessions && p in PortsOf(st.sessions[t], r) && PortsOf(st.sessions[t], r)[p].addr == a
  }

  /** `a` is the peer under `role` and `port` of `sid`, and no other peer of any session. */
  ghost predicate OnlyPeer(st: Relay, sid: Sid, role: Role, port: PortType, a: Address) {
    && HasPort(st, sid, role, port, a)
    && forall t, r, p | HasPort(st, t, r, p, a) :: t == sid && r == role && p == port
  }

  lemma OwnsMeans(st: Relay, t: Sid, a: Address)
    requires t in st.sessions
    ensures Owns(st.sessions[t], a) <==> exists r, p :: HasPort(st, t, r, p, a)
  {
    var s := st.sessions[t];
    OwnsByPort(s, a);
    hide Owns, PortsOf;
    if r, p :| p in PortsOf(s, r) && PortsOf(s, r)[p].addr == a {
      assert HasPort(st, t, r, p, a);
    }
    if r, p :| HasPort(st, t, r, p, a) {
      assert p in PortsOf(s, r) && PortsOf(s, r)[p].addr == a;
    }
  }

  /**
   * In a session that is not ready even with the new peer, the table is not rebuilt: a key loses its
   * last owner if and only if it is the address that the new peer replaces and no other peer has it.
   */
  lemma ReplacedLosesOwnerIff(st: Relay, sid: Sid, role: Role, port: PortType, addr: Address, now: Time, a: Address)
    requires role != Spectator
    ensures !RecordPeer(st, sid, role, port, addr, now).sessions[sid].IsReady() ==>
              (HasOwner(st, a) && Ownerless(RegisterPeer(st, sid, role, port, addr, now), a) <==>
               a in st.mappings && a != addr && OnlyPeer(st, sid, role, port, a))
  {
    OwnerlessIff(st, sid, role, port, addr, now, a);
    OwnersWithout(st, sid, role, port, addr, now, a);
    hide RecordPeer, RegisterPeer, Ownerless, HasOwner, OnlyPeer, Owns;
  }

  /** `a` has an owner, but none once the peer is on record. */
  lemma OwnersWithout(st: Relay, sid: Sid, role: Role, port: PortType, addr: Address, now: Time, a: Address)
    requires role != Spectator
    ensures var recorded := RecordPeer(st, sid, role, port, addr, now);
            HasOwner(st, a) && !HasOwner(recorded, a) <==> a != addr && OnlyPeer(st, sid, role, port, a)
  {
    var recorded := RecordPeer(st, sid, role, port, addr, now);
    RecordedPorts(st, sid, role, port, addr, now);
    HasOwnerMeans(st, a);
    HasOwnerMeans(recorded, a);
    hide RecordPeer, HasOwner, HasPort;
    assert HasPort(recorded, sid, role, port, addr);
  }

  lemma HasOwnerMeans(st: Relay, a: Address)
    ensures HasOwner(st, a) <==> exists t, r, p :: HasPort(st, t, r, p, a)
  {
    hide Owns;
    if t :| t in st.sessions && Owns(st.sessions[t], a) {
      OwnsMeans(st, t, a);
    }
    if t, r, p :| HasPort(st, t, r, p, a) {
      OwnsMeans(st, t, a);
    }
  }

  /** The ports on record after a registration: only one changes. */
  lemma RecordedPorts(st: Relay, sid: Sid, role: Role, port: PortType, addr: Address, now: Time)
    requires role != Spectator
    ensures var recorded := RecordPeer(st, sid, role, port, addr, now);
            && recorded.sessions.Keys == st.sessions.Keys + {sid}
            && forall t, r, p, a ::
                 HasPort(recorded, t, r, p, a) <==>
                 if t == sid && r == role && p == port then a == addr else HasPort(st, t, r, p, a)
  {
  }

  // ---------------------------------------------------------------- every step

  /** Two states with the same keys and the same peers */
  ghost predicate SamePeersAndKeys(st: Relay, after: Relay) {
    && after.mappings.Keys == st.mappings.Keys && after.sessions.Keys == st.sessions.Keys
    && forall t | t in st.sessions :: SamePorts(st.sessions[t], after.sessions[t])
  }

  lemma SameOwners(st: Relay, after: Relay, a: Address)
    requires SamePeersAndKeys(st, after)
    ensures HasOwner(after, a) <==> HasOwner(st, a)
    ensures Ownerless(after, a) <==> Ownerless(st, a)
  {
    hide AddrsOf;
    if t :| t in st.sessions && Owns(st.sessions[t], a) {
      assert Owns(after.sessions[t], a);
    }
    if t :| t in after.sessions && Owns(after.sessions[t], a) {
      assert Owns(st.sessions[t], a);
    }
  }

  lemma RemovingSpectatorKeepsPeers(st: Relay, addr: Address)
    ensures SamePeersAndKeys(st, RemoveSpectator(st, addr))
  {
  }

  lemma TouchingKeepsPeers(st: Relay, addr: Address, now: Time)
    ensures SamePeersAndKeys(st, Heartbeat(st, addr, now))
  {
  }

  /** A key without owner is reclaimed or stays; a key with one is disowned or keeps it. */
  lemma AcceptedPeer(st: Relay, ev: Event, a: Address)
    requires PeerAccepted(ev)
    ensures Ownerless(Step(st, ev), a) <==> (Ownerless(st, a) && !Reclaims(st, ev, a)) || Disowns(st, ev, a)
  {
    var target, removed := TargetOf(ev), RemoveSpectator(st, ev.addr);
    RemovingSpectatorKeepsPeers(st, ev.addr);
    SameOwners(st, removed, a);
    OwnerlessIff(removed, target.sid, target.role, target.port, ev.addr, ev.now, a);
    RecordedPorts(removed, target.sid, target.role, target.port, ev.addr, ev.now);
    StepIsRegistration(st, ev);
    hide RemoveSpectator, RegisterPeer, RecordPeer, Step, Overwritten, Accepts;
    var recorded := OnRecord(st, ev);
    if Ownerless(st, a) {
      NewOwner(removed, target.sid, target.role, target.port, ev.addr, ev.now, a);
    }
  }

  lemma StepIsRegistration(st: Relay, ev: Event)
    requires PeerAccepted(ev)
    ensures var t := TargetOf(ev);
            Step(st, ev) == RegisterPeer(RemoveSpectator(st, ev.addr), t.sid, t.role, t.port, ev.addr, ev.now)
  {
    hide RemoveSpectator, RegisterPeer;
  }

  /** The only new owner there can be is the session that registers `a` itself. */
  lemma NewOwner(st: Relay, sid: Sid, role: Role, port: PortType, addr: Address, now: Time, a: Address)
    requires role != Spectator && Ownerless(st, a)
    ensures var recorded := RecordPeer(st, sid, role, port, addr, now);
            && sid in recorded.sessions
            && forall t | t in recorded.sessions :: Owns(recorded.sessions[t], a) <==> t == sid && a == addr
  {
    var recorded := RecordPeer(st, sid, role, port, addr, now);
    RecordedPorts(st, sid, role, port, addr, now);
    forall t | t in recorded.sessions ensures Owns(recorded.sessions[t], a) <==> t == sid && a == addr {
      OwnsMeans(recorded, t, a);
      HasOwnerMeans(st, a);
      hide RecordPeer, Owns, HasPort;
      assert HasPort(recorded, sid, role, port, addr);
    }
  }

  /** What a spectator's announcement leaves alone: peers, keys, and new keys only for the streamer */
  lemma JoiningKeepsPeers(st: Relay, sid: Sid, port: PortType, addr: Address, now: Time)
    ensures var after := RegisterSpectator(st, sid, port, addr, now);
            && after.sessions.Keys == st.sessions.Keys + {sid}
            && (forall t | t in st.sessions :: SamePorts(st.sessions[t], after.sessions[t]))
            && (sid !in st.sessions ==> after.sessions[sid].AllRolesEmpty())
            && st.mappings.Keys <= after.mappings.Keys <= st.mappings.Keys + AddrsOf(after.sessions[sid].streamer)
  {
    hide SpectatorSlot, IndexEntry, FoundTargets, UsesIp;
    var s' := RegisterSpectator(st, sid, port, addr, now).sessions[sid];
    assert Full(s'.streamer) ==>
        s'.streamer[Video].addr in AddrsOf(s'.streamer) && s'.streamer[Control].addr in AddrsOf(s'.streamer);
  }

  lemma JoiningKeepsOwners(st: Relay, sid: Sid, port: PortType, addr: Address, now: Time, a: Address)
    ensures Ownerless(RegisterSpectator(st, sid, port, addr, now), a) <==> Ownerless(st, a)
  {
    var after := RegisterSpectator(st, sid, port, addr, now);
    JoiningKeepsPeers(st, sid, port, addr, now);
    hide RegisterSpectator, AddrsOf;
    forall t | t in st.sessions ensures Owns(after.sessions[t], a) <==> Owns(st.sessions[t], a) {
    }
    if sid !in st.sessions {
      NoPeersOwnNothing(after.sessions[sid], a);
    }
  }

  lemma NoPeersOwnNothing(s: Session, a: Address)
    requires s.AllRolesEmpty()
    ensures !Owns(s, a) && a !in AddrsOf(s.streamer)
  {
  }

  /** A pass drops a key together with the roles that own it, or not at all. */
  lemma CleaningKeepsOwners(st: Relay, now: Time, timeout: Time, alive: set<nat>, a: Address)
    ensures Ownerless(Cleanup(st, now, timeout, alive), a) <==> Ownerless(st, a)
  {
    var after, tcp := Cleanup(st, now, timeout, alive), DropDeadTargets(st, alive);
    CleanupExactly(st, now, timeout, alive);
    OnlyTargetsDropped(st, alive);
    assert MappingCleaned(tcp, after.mappings, a, now, timeout, alive);
    hide Cleanup, DropDeadTargets, MappingCleaned, Dropped, Filtered;
    KeyGoesWithItsRoles(tcp, after, now, timeout, alive, a);
  }

  lemma OwnerHasRole(s: Session, a: Address)
    ensures Owns(s, a) <==> exists role :: a in AddrsOf(PortsOf(s, role))
  {
    if a in AddrsOf(s.streamer) {
      assert a in AddrsOf(PortsOf(s, Streamer));
    }
    if a in AddrsOf(s.viewer) {
      assert a in AddrsOf(PortsOf(s, Viewer));
    }
    if role :| a in AddrsOf(PortsOf(s, role)) {
      match role case Streamer => case Viewer => case Spectator =>
    }
  }

  /** The roles of a session after the pass are those that were not idle. */
  lemma RolesThatStay(st: Relay, s: Session, s': Session, a: Address, now: Time, timeout: Time, alive: set<nat>)
    requires SessionCleaned(st, s, s', now, timeout, alive)
    ensures Owns(s', a) <==>
              exists role :: !Idle(st.mappings, s, role, now, timeout) && a in AddrsOf(PortsOf(s, role))
  {
    OwnerHasRole(s', a);
    forall role: Role
      ensures a in AddrsOf(PortsOf(s', role)) <==>
                !Idle(st.mappings, s, role, now, timeout) && a in AddrsOf(PortsOf(s, role))
    {
      hide Idle;
      match role case Streamer => case Viewer => case Spectator =>
    }
    hide *;
  }

  lemma KeyGoesWithItsRoles(st: Relay, after: Relay, now: Time, timeout: Time, alive: set<nat>, a: Address)
    requires ExactlyCleaned(st, after, now, timeout, alive)
               && MappingCleaned(st, after.mappings, a, now, timeout, alive)
    ensures Ownerless(after, a) <==> Ownerless(st, a)
  {
    assert a in after.mappings <==> a in st.mappings && !Expires(st.mappings, st.sessions, a, now, timeout);
    forall t | t in st.sessions ensures Owns(st.sessions[t], a) <==>
        exists role :: a in AddrsOf(PortsOf(st.sessions[t], role)) {
      OwnerHasRole(st.sessions[t], a);
    }
    forall t | t in after.sessions
      ensures Owns(after.sessions[t], a) <==>
                exists role :: !Idle(st.mappings, st.sessions[t], role, now,
                    timeout) && a in AddrsOf(PortsOf(st.sessions[t], role))
    {
      RolesThatStay(st, st.sessions[t], after.sessions[t], a, now, timeout, alive);
    }
    forall t, role | t in st.sessions && !Idle(st.mappings, st.sessions[t], role, now, timeout)
        && a in AddrsOf(PortsOf(st.sessions[t], role))
      ensures Survives(st.mappings, st.sessions[t], now, timeout)
    {
      RoleSurvives(st.mappings, st.sessions[t], role, a, now, timeout);
    }
    hide MappingCleaned, SessionCleaned, Survives, Idle, AddrsOf, PortsOf, Owns;
  }

  lemma RoleSurvives(table: Table, s: Session, role: Role, a: Address, now: Time, timeout: Time)
    requires !Idle(table, s, role, now, timeout) && a in AddrsOf(PortsOf(s, role))
    ensures Survives(table, s, now, timeout)
  {
    NonEmptyAddrs(PortsOf(s, role));
    hide Idle, AddrsOf;
    match role case Streamer => case Viewer => case Spectator =>
  }

  /** Only announcements of streamers and viewers matter, and these exactly as `Disowns` and `Reclaims` say. */
  lemma StepOwnerless(st: Relay, ev: Event, a: Address)
    ensures Ownerless(Step(st, ev), a) <==> (Ownerless(st, a) && !Reclaims(st, ev, a)) || Disowns(st, ev, a)
  {
    if PeerAccepted(ev) {
      AcceptedPeer(st, ev, a);
    } else {
      hide Ownerless, Disowns, Reclaims, Cleanup, Heartbeat, RemoveSpectator, RegisterSpectator, RegisterPeer, Accepts;
      NoPeerNoChange(st, ev, a);
      match ev {
        case Announced(role, port, sid, addr, store, now) => OtherAnnouncement(st, ev, a);
        case TcpConnected(addr, target) => SameOwners(st, Step(st, ev), a);
        case DataPacket(addr, now) => SameOwners(st, Step(st, ev), a);
        case StrayPacket(addr, now) =>
          TouchingKeepsPeers(st, addr, now);
          SameOwners(st, Step(st, ev), a);
        case CleanupPass(now, timeout, alive) => CleaningKeepsOwners(st, now, timeout, alive, a);
      }
    }
  }

  lemma NoPeerNoChange(st: Relay, ev: Event, a: Address)
    requires !PeerAccepted(ev)
    ensures !Reclaims(st, ev, a) && !Disowns(st, ev, a)
  {
  }

  lemma OtherAnnouncement(st: Relay, ev: Event, a: Address)
    requires ev.Announced? && !PeerAccepted(ev)
    ensures Ownerless(Step(st, ev), a) <==> Ownerless(st, a)
  {
    hide Ownerless, RemoveSpectator, RegisterSpectator;
    RemovingSpectatorKeepsPeers(st, ev.addr);
    SameOwners(st, RemoveSpectator(st, ev.addr), a);
    match Accepts(ev.role, ev.port, ev.sid, ev.store) {
      case None =>
      case Some(Target(actual, r, p)) => JoiningKeepsOwners(st, actual, p, ev.addr, ev.now, a);
    }
  }

  // ---------------------------------------------------------------- runs

  /** At step `k` the key lost its last owner, and none of the steps after `k` and before `n` reclaimed it. */
  ghost predicate LostAt(events: seq<Event>, k: nat, n: nat, a: Address) {
    && k < n <= |events| && Disowns(Run(events[..k]), events[k], a)
    && forall j | k < j < n :: !Reclaims(Run(events[..j]), events[j], a)
  }

  /**
   * In every run, the keys without an owner are exactly those that an announcement disowned and no
   * later one reclaimed. In particular no packet, spectator or cleanup pass makes one or removes one.
   */
  lemma {:induction false} OwnerlessInRuns(events: seq<Event>, n: nat, a: Address)
    requires n <= |events|
    ensures Ownerless(Run(events[..n]), a) <==> exists k: nat :: LostAt(events, k, n, a)
  {
    hide *;
    if n > 0 {
      var m := n - 1;
      OwnerlessInRuns(events, m, a);
      RunOfPrefix(events, m);
      StepOwnerless(Run(events[..m]), events[m], a);
      LostStep(events, m, m, a);
      if k: nat :| LostAt(events, k, m, a) {
        LostStep(events, k, m, a);
        assert Reclaims(Run(events[..m]), events[m], a) || LostAt(events, k, n, a);
      }
      if k: nat :| LostAt(events, k, n, a) {
        LostStep(events, k, m, a);
        assert LostAt(events, k, m, a) || Disowns(Run(events[..m]), events[m], a);
      }
    } else {
      NoKeyYet(events, a);
      forall k: nat ensures !LostAt(events, k, 0, a) {
        NothingLostYet(events, k, a);
      }
    }
  }

  lemma RunOfPrefix(events: seq<Event>, m: nat)
    requires m < |events|
    ensures Run(events[..m + 1]) == Step(Run(events[..m]), events[m])
  {
    hide Step;
    assert events[..m + 1][..m] == events[..m];
  }

  lemma LostStep(events: seq<Event>, k: nat, m: nat, a: Address)
    requires m < |events|
    ensures LostAt(events, k, m + 1, a) <==>
              || (k == m && Disowns(Run(events[..m]), events[m], a))
              || (LostAt(events, k, m, a) && !Reclaims(Run(events[..m]), events[m], a))
  {
    hide Disowns, Reclaims, Run;
  }

  lemma NoKeyYet(events: seq<Event>, a: Address)
    ensures !Ownerless(Run(events[..0]), a)
  {
    assert events[..0] == [];
  }

  lemma NothingLostYet(events: seq<Event>, k: nat, a: Address)
    ensures !LostAt(events, k, 0, a)
  {
  }

  // ---------------------------------------------------------------- a key that outlives its peer

  const READY := Complete(EmptySession("s", 1.0), Peer(1), Peer(2), Peer(3), Peer(4))

  /** Only the streamer is left, with the mapping it had when all four were there. */
  ghost predicate HalfExpired(st: Relay) {
    && st.sessions.Keys == {"s"} && Plain(st)
    && st.sessions["s"].streamer == READY.streamer && st.sessions["s"].viewer == map[]
    && Peer(1) in st.sessions["s"].addresses
    && Peer(1) in st.mappings && st.mappings[Peer(1)].targets == {Peer(3)}
  }

  /** The four peers are there; only peer 1 sends. */
  ghost predicate OneSends(st: Relay) {
    && st.sessions == map["s" := READY] && Plain(st)
    && st.mappings == NewMappings(READY, 1.0)[Peer(1) := Mapping({Peer(3)}, 20.0)]
  }

  lemma FourJoined() returns (events: seq<Event>)
    ensures OneSends(Run(events))
  {
    hide *;
    NothingYet();
    AfterFour([], "s", 1, 2, 3, 4);
    var four := [] + FourJoin("s", Peer(1), Peer(2), Peer(3), Peer(4));
    events := four + [DataPacket(Peer(1), 20.0)];
    OneMoreEvent(four, DataPacket(Peer(1), 20.0));
    PeerOneSends(Run([]), Run(four));
  }

  lemma NothingYet()
    ensures var st := Run([]);
            Plain(st) && st.mappings == map[] && st.sessions == map[] && SessionOf(st, "s") == EmptySession("s", 1.0)
            && SessionOf(st, "s").AllRolesEmpty()
  {
  }

  lemma PeerOneSends(before: Relay, st: Relay)
    requires before.sessions == map[] && before.mappings == map[] && SessionOf(before, "s") == EmptySession("s", 1.0)
    requires var s := Complete(SessionOf(before, "s"), Peer(1), Peer(2), Peer(3), Peer(4));
             && st.sessions == before.sessions["s" := s] - OverwrittenBy(before, "s", s) && Plain(st) && s.IsReady()
             && (s.spectators == [] ==> st.mappings == NewMappings(s, 1.0))
    ensures OneSends(Step(st, DataPacket(Peer(1), 20.0)))
  {
  }

  /** The pass empties the viewer, whose mappings nobody has used for 20 seconds. */
  lemma ViewerExpires(st: Relay)
    requires OneSends(st)
    ensures HalfExpired(Cleanup(st, 21.0, 10.0, {}))
  {
    hide *;
    var after, tcp := Cleanup(st, 21.0, 10.0, {}), DropDeadTargets(st, {});
    CleanupExactly(st, 21.0, 10.0, {});
    OnlyTargetsDropped(st, {});
    StillOneSends(st, tcp);
    NobodyConnected(st);
    OnlySession(st);
    AddressesAfterCleanup(st, "s", 21.0, 10.0, {});
    HalfIsLeft(tcp, after);
    OneKeyStays(tcp, after);
    StaysOnRecord(st, tcp.tcp);
    SessionsFit(after);
  }

  lemma OnlySession(st: Relay)
    requires OneSends(st)
    ensures "s" in st.sessions && st.sessions["s"] == READY
  {
  }

  lemma StillOneSends(st: Relay, tcp: Relay)
    requires OneSends(st) && tcp == DropDeadTargets(st, {}) && tcp == st.(tcp := tcp.tcp)
    ensures OneSends(tcp)
  {
    hide NewMappings, Spectates;
  }

  lemma NobodyConnected(st: Relay)
    requires OneSends(st)
    ensures Cleanup(st, 21.0, 10.0, {}).tcp == map[]
  {
    hide ExpireSession, ExpiredAddresses, KeepActive, InactiveAddresses, Without, NewMappings, Spectates;
  }

  lemma HalfIsLeft(st: Relay, after: Relay)
    requires OneSends(st) && ExactlyCleaned(st, after, 21.0, 10.0, {})
    ensures after.sessions.Keys == {"s"}
    ensures var s := after.sessions["s"]; s.streamer == READY.streamer && s.viewer == map[] && s.spectators == []
  {
    IdleViewerOnly(st);
    hide Idle, MappingCleaned, NewMappings, Dropped, Expires, Spectates;
    assert Survives(st.mappings, READY, 21.0, 10.0);
  }

  lemma OneKeyStays(st: Relay, after: Relay)
    requires OneSends(st) && ExactlyCleaned(st, after, 21.0, 10.0, {})
    ensures Peer(1) in after.mappings && after.mappings[Peer(1)].targets == {Peer(3)}
  {
    IdleViewerOnly(st);
    hide Idle, SessionCleaned, NewMappings, Survives, Spectates;
    assert MappingCleaned(st, after.mappings, Peer(1), 21.0, 10.0, {});
    assert Peer(1) !in AddrsOf(PortsOf(READY, Viewer)) && AddrsOf(PortsOf(READY, Spectator)) == {};
    assert SilentAddresses(st.tcp, READY, 21.0, {}) == {};
  }

  lemma StaysOnRecord(st: Relay, tcp: map<Address, nat>)
    requires OneSends(st)
    ensures Peer(1) in READY.addresses
                       - RoleAddresses(st.mappings, READY, Streamer, 21.0, 10.0)
                       - RoleAddresses(st.mappings, READY, Viewer, 21.0, 10.0)
                       - SilentAddresses(tcp, READY, 21.0, {})
  {
    IdleViewerOnly(st);
    hide Idle, NewMappings, Spectates;
  }

  lemma SessionsFit(after: Relay)
    requires after.tcp == map[] && after.sessions.Keys == {"s"}
    requires var s := after.sessions["s"];
             && s.streamer == READY.streamer && s.viewer == map[] && s.spectators == [] && Peer(1) in s.addresses
    requires Peer(1) in after.mappings && after.mappings[Peer(1)].targets == {Peer(3)}
    ensures HalfExpired(after)
  {
    assert !Spectates(after.sessions["s"], Peer(1));
  }

  lemma IdleViewerOnly(st: Relay)
    requires OneSends(st)
    ensures Idle(st.mappings, READY, Viewer, 21.0, 10.0) && !Idle(st.mappings, READY, Streamer, 21.0, 10.0)
  {
  }

  /** A new streamer comes while the viewer is missing: nothing is rebuilt, and the old streamer's key stays. */
  lemma ReplacedWhileHalf(st: Relay)
    requires HalfExpired(st)
    ensures var after := RegisterPeer(st, "s", Streamer, Video, Peer(9), 22.0);
            && after.sessions.Keys == {"s"} && Ownerless(after, Peer(1))
            && Peer(1) in after.sessions["s"].addresses && after.mappings[Peer(1)].targets == {Peer(3)}
  {
    KeysAfterRegistration(st, "s", Streamer, Video, Peer(9), 22.0);
    ReplacedLosesOwnerIff(st, "s", Streamer, Video, Peer(9), 22.0, Peer(1));
    hide RegisterPeer, Ownerless, Spectates;
    assert OnlyPeer(st, "s", Streamer, Video, Peer(1)) by { hide RecordPeer; }
  }

  /**
   * Four peers; the viewer falls silent and expires; then a new streamer replaces the old one. No
   * session was overwritten and the old streamer's address is still on record, but its mapping to
   * the expired viewer stays, and belongs to nobody.
   */
  lemma KeyOutlivesItsPeer() returns (events: seq<Event>)
    ensures var st := Run(events);
            && st.sessions.Keys == {"s"} && Ownerless(st, Peer(1))
            && Peer(1) in st.sessions["s"].addresses && st.mappings[Peer(1)].targets == {Peer(3)}
  {
    hide *;
    var early := FourJoined();
    var pass, joins := CleanupPass(21.0, 10.0, {}),
        Announced("streamer", "video", "s", Peer(9), StoreAnswer(true, None), 22.0);
    OneMoreEvent(early, pass);
    OneMoreEvent(early + [pass], joins);
    ViewerExpires(Run(early));
    CleansUp(Run(early), pass);
    var half := Run(early + [pass]);
    StreamerIsAccepted();
    HalfIsPlain(half);
    NobodySpectates(half, 9);
    AnnouncedByPeer(half, joins, Target("s", Streamer, Video));
    ReplacedWhileHalf(half);
    events := early + [pass] + [joins];
  }

  lemma CleansUp(st: Relay, pass: Event)
    requires pass == CleanupPass(21.0, 10.0, {})
    ensures Step(st, pass) == Cleanup(st, 21.0, 10.0, {})
  {
  }

  lemma StreamerIsAccepted()
    ensures Accepts("streamer", "video", "s", StoreAnswer(true, None)) == Some(Target("s", Streamer, Video))
  {
  }

  lemma HalfIsPlain(st: Relay)
    requires HalfExpired(st)
    ensures Plain(st)
  {
  }
}
