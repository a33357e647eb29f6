/**
 * Addresses that a session keeps on record although none of its peers and spectators uses them:
 * which event leaves one behind, what takes it away again, and for every run exactly which there are.
 */
module AbandonedAddresses {
  import opened RelayTypes
  import opened RelaySpec
  import opened RelayCleanup
  import opened RelayTable
  import opened RelayLeftovers
  import opened OwnerlessKeys
  import opened SpectatorIndex
  import opened SharedAddresses
  import opened IndexHistory
  import opened ExactTables

  ghost predicate Abandons(st: Relay, sid: Sid, a: Address) {
    sid in st.sessions && Abandoned(st.sessions[sid], a)
  }

  /** `a` announces itself to `sid`, in any role. */
  predicate JoinsAgain(ev: Event, sid: Sid, a: Address) {
    ev.Announced? && ev.addr == a
    && var target := Accepts(ev.role, ev.port, ev.sid, ev.store);
       target.Some? && target.value.sid == sid
  }

  /** A new peer takes the port of `a`, which was on record and has no other use in the session. */
  ghost predicate GivesUp(st: Relay, ev: Event, sid: Sid, a: Address) {
    PeerAccepted(ev) && TargetOf(ev).sid == sid && ev.addr != a
    && var removed, target := RemoveSpectator(st, ev.addr), TargetOf(ev);
       sid in removed.sessions
       && var s := removed.sessions[sid];
          && Uses(s, target.role, target.port, a) && a in s.addresses && !SpectatedBy(s, a)
          && forall r, p | Uses(s, r, p, a) :: r == target.role && p == target.port
  }

  // ---------------------------------------------------------------- one session

  predicate Uses(s: Session, r: Role, p: PortType, a: Address) {
    p in PortsOf(s, r) && PortsOf(s, r)[p].addr == a
  }

  lemma AbandonedMeans(s: Session, a: Address)
    ensures Abandoned(s, a) <==> a in s.addresses && !SpectatedBy(s, a) && forall r, p :: !Uses(s, r, p, a)
  {
    OwnsByPort(s, a);
    hide PortsOf, AddrsOf;
    if r, p :| p in PortsOf(s, r) && PortsOf(s, r)[p].addr == a {
      assert Uses(s, r, p, a);
    }
  }

  lemma PeerTakesPort(s: Session, role: Role, port: PortType, peer: PeerEntry, a: Address)
    requires role != Spectator
    ensures Abandoned(RegisterPeerPort(s, role, port, peer), a) <==>
              && a != peer.addr && a in s.addresses && !SpectatedBy(s, a)
              && forall r, p | Uses(s, r, p, a) :: r == role && p == port
  {
    var s' := RegisterPeerPort(s, role, port, peer);
    AbandonedMeans(s', a);
    assert s'.spectators == s.spectators && s'.addresses == s.addresses + {peer.addr};
    forall r, p
      ensures Uses(s', r, p, a) <==> if r == role && p == port then peer.addr == a else Uses(s, r, p, a)
    {
      match r case _ =>
    }
    hide RegisterPeerPort, Uses, AddrsOf, Abandoned;
    if peer.addr == a {
      assert Uses(s', role, port, a);
    }
  }

  /** `a` may stop spectating, but then leaves the record; nothing else changes about it. */
  ghost predicate UsedOrForgotten(s: Session, s': Session, a: Address) {
    && SamePorts(s, s')
    && (SpectatedBy(s', a) ==> SpectatedBy(s, a))
    && (a in s'.addresses <==> a in s.addresses && (SpectatedBy(s, a) ==> a in s'.addresses))
    && (a in s'.addresses && SpectatedBy(s, a) ==> SpectatedBy(s', a))
  }

  lemma AbandonedAsBefore(s: Session, s': Session, a: Address)
    requires UsedOrForgotten(s, s', a)
    ensures Abandoned(s', a) <==> Abandoned(s, a)
  {
    hide SpectatedBy, AddrsOf;
  }

  lemma RemovedEntry(s: Session, i: nat, a: Address)
    requires i < |s.spectators|
    ensures UsedOrForgotten(s, RemoveSpectatorAt(s, i), a)
  {
    var s' := RemoveSpectatorAt(s, i);
    hide AddrsOf;
    forall k | 0 <= k < |s.spectators| && k != i ensures s.spectators[k] in s'.spectators {
      assert s'.spectators[if k < i then k else k - 1] == s.spectators[k];
    }
    forall e | e in s'.spectators ensures e in s.spectators {
    }
    assert s.spectators[i] in s.spectators;
  }

  /** Another address joins as a spectator. */
  lemma JoinedEntry(s: Session, port: PortType, peer: PeerEntry, uid: nat, a: Address)
    requires a != peer.addr
    ensures UsedOrForgotten(s, RegisterSpectatorPort(s, port, peer, uid).0, a)
  {
    var (s', replaced) := RegisterSpectatorPort(s, port, peer, uid);
    if replaced == Some(a) {
      GivenUpWasUsed(s, port, peer, uid, a);
      OnlyLess(s, port, peer, uid, a);
    } else {
      forall i: nat | i < |s'.spectators|
        ensures a in s'.spectators[i].Addresses() ==> i < |s.spectators| && a in s.spectators[i].Addresses()
        ensures i < |s.spectators| && a in s.spectators[i].Addresses() ==> a in s'.spectators[i].Addresses()
      {
        EntriesWere(s, port, peer, uid, a, i);
      }
      hide AddrsOf, SpectatorSlot, Replaced;
    }
  }

  lemma GivenUpWasUsed(s: Session, port: PortType, peer: PeerEntry, uid: nat, a: Address)
    requires RegisterSpectatorPort(s, port, peer, uid).1 == Some(a)
    ensures SpectatedBy(s, a) && a !in RegisterSpectatorPort(s, port, peer, uid).0.addresses
  {
    var (i, was) := SpectatorSlot(s, peer.addr.ip, uid);
    hide SpectatorSlot;
    assert port in was.ports && was.ports[port].addr == a;
    assert a in s.spectators[i].Addresses() && s.spectators[i] in s.spectators;
  }

  lemma OnlyLess(s: Session, port: PortType, peer: PeerEntry, uid: nat, a: Address)
    requires a != peer.addr && SpectatedBy(s, a)
    ensures SamePorts(s, RegisterSpectatorPort(s, port, peer, uid).0)
  {
    hide SpectatorSlot;
  }

  // ---------------------------------------------------------------- a cleanup pass

  lemma FilteredUse(tcp: map<Address, nat>, s: Session, s': Session, a: Address, now: Time, alive: set<nat>)
    requires s'.spectators == Filtered(tcp, s.spectators, now, alive)
    ensures SpectatedBy(s', a) ==> SpectatedBy(s, a)
    ensures SpectatedBy(s, a) && a !in SilentAddresses(tcp, s, now, alive) ==> SpectatedBy(s', a)
  {
    hide Filtered, Silent, AddrsOf;
    if e :| e in s'.spectators && a in e.Addresses() {
      var k :| 0 <= k < |s'.spectators| && s'.spectators[k] == e;
      var j := FilteredFrom(tcp, s.spectators, now, alive, k);
      assert s.spectators[j] in s.spectators;
    }
    if e :| e in s.spectators && a in e.Addresses() && !Silent(tcp, e, now, alive) {
      var j :| 0 <= j < |s.spectators| && s.spectators[j] == e;
      FilteredKeeps(tcp, s.spectators, now, alive, j);
      var k :| 0 <= k < |s'.spectators| && s'.spectators[k].ports == e.ports;
      assert s'.spectators[k] in s'.spectators;
    }
  }

  /** A pass takes an address off the record together with its last use, or not at all. */
  lemma CleaningAbandonsNothing(st: Relay, now: Time, timeout: Time, alive: set<nat>, sid: Sid, a: Address)
    requires sid in Cleanup(st, now, timeout, alive).sessions
    ensures sid in st.sessions
    ensures Abandoned(Cleanup(st, now, timeout, alive).sessions[sid], a) <==> Abandoned(st.sessions[sid], a)
  {
    hide *;
    var tcp, after := DropDeadTargets(st, alive), Cleanup(st, now, timeout, alive);
    CleanupExactly(st, now, timeout, alive);
    OnlyTargetsDropped(st, alive);
    CleanedSessions(tcp, after, sid, now, timeout, alive);
    AddressesAfterCleanup(st, sid, now, timeout, alive);
    CleanedUse(tcp, st.sessions[sid], after.sessions[sid], a, now, timeout, alive);
  }

  lemma CleanedSessions(st: Relay, after: Relay, sid: Sid, now: Time, timeout: Time, alive: set<nat>)
    requires ExactlyCleaned(st, after, now, timeout, alive) && sid in after.sessions
    ensures sid in st.sessions && SessionCleaned(st, st.sessions[sid], after.sessions[sid], now, timeout, alive)
  {
    hide SessionCleaned, MappingCleaned, Survives;
  }

  lemma CleanedUse(st: Relay, s: Session, s': Session, a: Address, now: Time, timeout: Time, alive: set<nat>)
    requires SessionCleaned(st, s, s', now, timeout, alive)
    requires s'.addresses == s.addresses
                             - RoleAddresses(st.mappings, s, Streamer, now, timeout)
                             - RoleAddresses(st.mappings, s, Viewer, now, timeout)
                             - SilentAddresses(st.tcp, s, now, alive)
    ensures Abandoned(s', a) <==> Abandoned(s, a)
  {
    FilteredUse(st.tcp, s, s', a, now, alive);
    SilentAreSpectating(st.tcp, s, a, now, alive);
    NothingEmpty(a);
    hide Idle, Filtered, SilentAddresses, SpectatedBy, AddrsOf;
  }

  lemma NothingEmpty(a: Address)
    ensures a !in AddrsOf(map[])
  {
  }

  lemma SilentAreSpectating(tcp: map<Address, nat>, s: Session, a: Address, now: Time, alive: set<nat>)
    ensures a in SilentAddresses(tcp, s, now, alive) ==> SpectatedBy(s, a)
  {
  }

  // ---------------------------------------------------------------- every step

  lemma RemovingAbandonsNothing(st: Relay, addr: Address, sid: Sid, a: Address)
    ensures Abandons(RemoveSpectator(st, addr), sid, a) <==> Abandons(st, sid, a)
    ensures sid in RemoveSpectator(st, addr).sessions <==> sid in st.sessions
  {
    var found := FirstSpectated(st.sessions, st.order, addr);
    hide Abandoned, RemoveTargets, RemoveSpectatorAt;
    if found == Some(sid) {
      var i := FindByAddress(st.sessions[sid].spectators, addr).value;
      RemovedEntry(st.sessions[sid], i, a);
      AbandonedAsBefore(st.sessions[sid], RemoveSpectatorAt(st.sessions[sid], i), a);
    }
  }

  lemma RecordingAbandons(st: Relay, sid: Sid, role: Role, port: PortType, addr: Address, now: Time, t: Sid, a: Address)
    requires role != Spectator
    ensures var after := RegisterPeer(st, sid, role, port, addr, now);
            && sid in after.sessions
            && (t in after.sessions ==>
                  (Abandons(after, t, a) <==>
                   if t == sid then
                     && a != addr && sid in st.sessions
                     && var s := st.sessions[sid];
                        && a in s.addresses && !SpectatedBy(s, a)
                        && forall r, p | Uses(s, r, p, a) :: r == role && p == port
                   else Abandons(st, t, a)))
  {
    KeysAfterRegistration(st, sid, role, port, addr, now);
    RecordedSession(st, sid, role, port, addr, now);
    var s := SetDefault(st, sid, now).sessions[sid];
    PeerTakesPort(s, role, port, PeerEntry(addr, if addr in st.tcp then Tcp else Udp, now), a);
    hide RegisterPeer, RecordPeer, Abandoned, Uses, SpectatedBy, RegisterPeerPort, Overwritten;
  }

  lemma RecordedSession(st: Relay, sid: Sid, role: Role, port: PortType, addr: Address, now: Time)
    requires role != Spectator
    ensures var recorded := RecordPeer(st, sid, role, port, addr, now).sessions;
            var peer := PeerEntry(addr, if addr in st.tcp then Tcp else Udp, now);
            && sid in recorded
            && recorded[sid] == RegisterPeerPort(SetDefault(st, sid, now).sessions[sid], role, port, peer)
            && (forall t | t != sid :: t in recorded <==> t in st.sessions)
            && (forall t | t != sid && t in recorded :: recorded[t] == st.sessions[t])
  {
  }

  lemma JoiningAbandons(st: Relay, sid: Sid, port: PortType, addr: Address, now: Time, t: Sid, a: Address)
    ensures var after := RegisterSpectator(st, sid, port, addr, now);
            && sid in after.sessions && (t in st.sessions ==> t in after.sessions)
            && (Abandons(after, t, a) <==> Abandons(st, t, a) && !(t == sid && a == addr))
  {
    var after := RegisterSpectator(st, sid, port, addr, now);
    var was, peer := SetDefault(st, sid, now).sessions, PeerEntry(addr, if addr in st.tcp then Tcp else Udp, now);
    assert after.sessions == was[sid := RegisterSpectatorPort(was[sid], port, peer, st.nextUid).0] by {
      hide RegisterSpectatorPort, RemoveTargets, AttachSpectators;
    }
    NewSessionHasNothing(sid, now, a);
    hide RegisterSpectator, Abandoned, RegisterSpectatorPort, EmptySession;
    if a == addr {
      AnnouncedSpectates(was[sid], port, peer, st.nextUid);
      SpectatingIsUse(RegisterSpectatorPort(was[sid], port, peer, st.nextUid).0, a);
    } else {
      JoinedEntry(was[sid], port, peer, st.nextUid, a);
      AbandonedAsBefore(was[sid], RegisterSpectatorPort(was[sid], port, peer, st.nextUid).0, a);
    }
  }

  lemma NewSessionHasNothing(sid: Sid, now: Time, a: Address)
    ensures !Abandoned(EmptySession(sid, now), a)
  {
  }

  lemma SpectatingIsUse(s: Session, a: Address)
    requires Spectates(s, a)
    ensures !Abandoned(s, a)
  {
    var i := FindByAddress(s.spectators, a).value;
    assert s.spectators[i] in s.spectators;
  }

  /** As long as the session lives: what it abandons is given up now, or was before and has not joined again. */
  lemma StepAbandons(st: Relay, ev: Event, sid: Sid, a: Address)
    requires sid in Step(st, ev).sessions
    ensures Abandons(Step(st, ev), sid, a) <==>
              (Abandons(st, sid, a) && !JoinsAgain(ev, sid, a)) || GivesUp(st, ev, sid, a)
  {
    hide Abandoned, GivesUp, Cleanup, RegisterSpectator, RegisterPeer, RemoveSpectator, ParseRole, ParsePort;
    match ev
    case Announced(role, port, t, addr, store, now) => AnnouncingAbandons(st, ev, sid, a);
    case TcpConnected(addr, target) => OnlyPeersGiveUp(st, ev, sid, a);
    case DataPacket(addr, now) => OnlyPeersGiveUp(st, ev, sid, a);
    case StrayPacket(addr, now) =>
      OnlyPeersGiveUp(st, ev, sid, a);
      TouchingAbandonsNothing(st, addr, now, sid, a);
    case CleanupPass(now, timeout, alive) =>
      OnlyPeersGiveUp(st, ev, sid, a);
      CleaningAbandonsNothing(st, now, timeout, alive, sid, a);
  }

  lemma OnlyPeersGiveUp(st: Relay, ev: Event, sid: Sid, a: Address)
    requires !PeerAccepted(ev)
    ensures !GivesUp(st, ev, sid, a)
  {
  }

  lemma TouchingAbandonsNothing(st: Relay, addr: Address, now: Time, sid: Sid, a: Address)
    ensures Abandons(Heartbeat(st, addr, now), sid, a) <==> Abandons(st, sid, a)
  {
    if sid in st.sessions {
      var s, s' := st.sessions[sid], Heartbeat(st, addr, now).sessions[sid];
      assert SamePorts(s, s') && s'.addresses == s.addresses;
      hide Heartbeat;
      SamePortsSameUse(s, s', a);
      SamePortsSameUse(s', s, a);
    }
  }

  lemma SamePortsSameUse(s: Session, s': Session, a: Address)
    requires |s'.spectators| == |s.spectators|
    requires forall i | 0 <= i < |s.spectators| :: s'.spectators[i].ports == s.spectators[i].ports
    ensures SpectatedBy(s, a) ==> SpectatedBy(s', a)
  {
    if e :| e in s.spectators && a in e.Addresses() {
      var i :| 0 <= i < |s.spectators| && s.spectators[i] == e;
      assert s'.spectators[i] in s'.spectators && a in s'.spectators[i].Addresses();
    }
  }

  lemma AnnouncingAbandons(st: Relay, ev: Event, sid: Sid, a: Address)
    requires ev.Announced? && sid in Step(st, ev).sessions
    ensures Abandons(Step(st, ev), sid, a) <==>
              (Abandons(st, sid, a) && !JoinsAgain(ev, sid, a)) || GivesUp(st, ev, sid, a)
  {
    RemovingAbandonsNothing(st, ev.addr, sid, a);
    hide Abandoned, RemoveSpectator, RegisterSpectator, RegisterPeer, Uses, SpectatedBy;
    match Accepts(ev.role, ev.port, ev.sid, ev.store) {
      case None =>
      case Some(Target(actual, Spectator, p)) => JoiningAbandons(st, actual, p, ev.addr, ev.now, sid, a);
      case Some(Target(actual, r, p)) =>
        var removed := RemoveSpectator(st, ev.addr);
        RecordingAbandons(removed, actual, r, p, ev.addr, ev.now, sid, a);
        if sid in removed.sessions {
          AbandonedMeans(removed.sessions[sid], a);
        }
    }
  }

  // ---------------------------------------------------------------- runs

  /** At step `k` the session gave `a` up, and up to step `n` it lives and `a` has not joined it again. */
  ghost predicate GivenUpAt(events: seq<Event>, k: nat, n: nat, sid: Sid, a: Address) {
    && k < n <= |events| && GivesUp(Run(events[..k]), events[k], sid, a)
    && forall j | k < j <= n :: sid in Run(events[..j]).sessions && (j < n ==> !JoinsAgain(events[j], sid, a))
  }

  /**
   * In every run, the addresses that a session keeps on record without a use are exactly those
   * whose port a new peer took, while the session has lived and they have not joined it again.
   */
  lemma {:induction false} AbandonedInRuns(events: seq<Event>, n: nat, sid: Sid, a: Address)
    requires n <= |events|
    ensures Abandons(Run(events[..n]), sid, a) <==> exists k: nat :: GivenUpAt(events, k, n, sid, a)
  {
    hide *;
    if n > 0 {
      var m := n - 1;
      AbandonedInRuns(events, m, sid, a);
      RunOfPrefix(events, m);
      OneMoreStep(Run(events[..m]), events[m], sid, a);
      GivenUpStep(events, m, m, sid, a);
      if k: nat :| GivenUpAt(events, k, m, sid, a) {
        GivenUpStep(events, k, m, sid, a);
        assert sid !in Run(events[..n]).sessions || JoinsAgain(events[m], sid, a) || GivenUpAt(events, k, n, sid, a);
      }
      if k: nat :| GivenUpAt(events, k, n, sid, a) {
        GivenUpStep(events, k, m, sid, a);
        assert GivenUpAt(events, k, m, sid, a) || GivesUp(Run(events[..m]), events[m], sid, a);
      }
    } else {
      NoSessionYet(events, sid, a);
      forall k: nat ensures !GivenUpAt(events, k, 0, sid, a) {
        NothingGivenUpYet(events, k, sid, a);
      }
    }
  }

  lemma OneMoreStep(st: Relay, ev: Event, sid: Sid, a: Address)
    ensures Abandons(Step(st, ev), sid, a) <==>
              && sid in Step(st, ev).sessions
              && ((Abandons(st, sid, a) && !JoinsAgain(ev, sid, a)) || GivesUp(st, ev, sid, a))
  {
    hide Abandoned, GivesUp, Step, JoinsAgain;
    if sid in Step(st, ev).sessions {
      StepAbandons(st, ev, sid, a);
    }
  }

  lemma GivenUpStep(events: seq<Event>, k: nat, m: nat, sid: Sid, a: Address)
    requires m < |events|
    ensures GivenUpAt(events, k, m + 1, sid, a) <==>
              && sid in Run(events[..m + 1]).sessions
              && ((k == m && GivesUp(Run(events[..m]), events[m], sid, a))
                  || (GivenUpAt(events, k, m, sid, a) && !JoinsAgain(events[m], sid, a)))
  {
    hide GivesUp, JoinsAgain, Run;
  }

  lemma NoSessionYet(events: seq<Event>, sid: Sid, a: Address)
    ensures !Abandons(Run(events[..0]), sid, a)
  {
    assert events[..0] == [];
  }

  lemma NothingGivenUpYet(events: seq<Event>, k: nat, sid: Sid, a: Address)
    ensures !GivenUpAt(events, k, 0, sid, a)
  {
  }
}
