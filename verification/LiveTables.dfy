/**
 * The same with a weaker assumption: no address has two uses at one time. An address may move on
 * to another session, role or port as often as it likes. In every run in which this holds
 * throughout, the targets of every ready session are exact at all times.
 */
module LiveTables {
  import opened RelayTypes
  import opened RelaySpec
  import opened SpectatorGrouping
  import opened RelaySafety
  import opened RelayTable
  import opened RelayCleanup
  import opened ExactTables

  // ---------------------------------------------------------------- uses

  /** Who uses which address now: the log of what was accepted, as far as it is still in force */
  ghost function LiveLog(st: Relay): set<Accepted> {
    (set sid, p | sid in st.sessions && p in st.sessions[sid].streamer ::
       Accepted(sid, Streamer, p, st.sessions[sid].streamer[p].addr)) +
    (set sid, p | sid in st.sessions && p in st.sessions[sid].viewer ::
       Accepted(sid, Viewer, p, st.sessions[sid].viewer[p].addr)) +
    (set sid, e, p | sid in st.sessions && e in st.sessions[sid].spectators && p in e.ports ::
       Accepted(sid, Spectator, p, e.ports[p].addr))
  }

  /** No address has two uses. */
  ghost predicate UsesOnce(st: Relay) {
    OneUse(LiveLog(st))
  }

  lemma LiveIsLogged(st: Relay)
    ensures AllLogged(st.sessions, LiveLog(st))
  {
    forall sid | sid in st.sessions ensures SessionLogged(st.sessions[sid], sid, LiveLog(st)) {
      var s := st.sessions[sid];
      forall i | 0 <= i < |s.spectators| ensures PortsLogged(s.spectators[i].ports, sid, Spectator, LiveLog(st)) {
        assert s.spectators[i] in s.spectators;
      }
    }
  }

  /** What is in force was accepted, so the assumption is weaker than that about the whole log. */
  lemma LiveWasAccepted(st: Relay, log: set<Accepted>)
    requires AllLogged(st.sessions, log)
    ensures LiveLog(st) <= log
    ensures OneUse(log) ==> UsesOnce(st)
  {
    forall x | x in LiveLog(st) ensures x in log {
      assert SessionLogged(st.sessions[x.sid], x.sid, log);
      if x.role == Spectator {
        var e :| e in st.sessions[x.sid].spectators && x.port in e.ports && e.ports[x.port].addr == x.addr;
        var i :| 0 <= i < |st.sessions[x.sid].spectators| && st.sessions[x.sid].spectators[i] == e;
        assert PortsLogged(e.ports, x.sid, Spectator, log);
      }
    }
  }

  /** With one use each, streamer, viewer and spectators of a session share no address. */
  lemma RolesApart(s: Session, sid: Sid, log: set<Accepted>)
    requires OneUse(log) && SessionLogged(s, sid, log)
    ensures AddrsOf(s.streamer) !! AddrsOf(s.viewer)
    ensures forall e | e in s.spectators :: e.Addresses() !! AddrsOf(s.streamer) && e.Addresses() !! AddrsOf(s.viewer)
  {
    forall e, a | e in s.spectators && a in e.Addresses() ensures exists p :: Accepted(sid, Spectator, p, a) in log {
      var i :| 0 <= i < |s.spectators| && s.spectators[i] == e;
      assert PortsLogged(s.spectators[i].ports, sid, Spectator, log);
      var p :| p in e.ports && e.ports[p].addr == a;
    }
    forall a | a in AddrsOf(s.streamer) ensures exists p :: Accepted(sid, Streamer, p, a) in log {
      var p :| p in s.streamer && s.streamer[p].addr == a;
    }
    forall a | a in AddrsOf(s.viewer) ensures exists p :: Accepted(sid, Viewer, p, a) in log {
      var p :| p in s.viewer && s.viewer[p].addr == a;
    }
    hide AddrsOf, SessionLogged;
  }

  // ---------------------------------------------------------------- the invariant

  /** The targets of a ready session are exact; every session has its peers on record. */
  ghost predicate Fits(mappings: map<Address, Mapping>, s: Session) {
    && (s.IsReady() ==> TargetsExact(mappings, s))
    && AddrsOf(s.streamer) <= s.addresses && AddrsOf(s.viewer) <= s.addresses
  }

  ghost predicate AllFit(st: Relay) {
    Inv(st) && forall t | t in st.sessions :: Fits(st.mappings, st.sessions[t])
  }

  /** Outside `changed` the table keeps its keys and their targets. */
  ghost predicate SameOutside(before: map<Address, Mapping>, after: map<Address, Mapping>, changed: set<Address>) {
    forall a | a !in changed ::
      (a in before <==> a in after) && (a in before && a in after ==> after[a].targets == before[a].targets)
  }

  lemma FitsOutside(before: map<Address, Mapping>, after: map<Address, Mapping>, changed: set<Address>, s: Session)
    requires Fits(before, s) && SameOutside(before, after, changed)
    requires changed !! AddrsOf(s.streamer) && changed !! AddrsOf(s.viewer)
    ensures Fits(after, s)
  {
    if s.IsReady() {
      TwoAddresses(s.streamer);
      TwoAddresses(s.viewer);
    }
    hide Audience, AddrsOf;
  }

  lemma FitsNotReady(mappings: map<Address, Mapping>, s: Session)
    requires !s.IsReady() && AddrsOf(s.streamer) <= s.addresses && AddrsOf(s.viewer) <= s.addresses
    ensures Fits(mappings, s)
  {
  }

  /** Different sessions have different peers. */
  lemma PeersApart(st: Relay, sid: Sid, t: Sid)
    requires UsesOnce(st) && sid in st.sessions && t in st.sessions && sid != t
    ensures AddrsOf(st.sessions[sid].streamer) !! AddrsOf(st.sessions[t].streamer)
    ensures AddrsOf(st.sessions[sid].streamer) !! AddrsOf(st.sessions[t].viewer)
  {
    LiveIsLogged(st);
    var log := LiveLog(st);
    assert SessionLogged(st.sessions[sid], sid, log) && SessionLogged(st.sessions[t], t, log);
    StreamerIsKnown(st.sessions[sid], sid, log);
    StreamerIsKnown(st.sessions[t], t, log);
    ViewerIsKnown(st.sessions[t], t, log);
    hide LiveLog, SessionLogged, AddrsOf;
    forall a | Knows(log, sid, a) && Knows(log, t, a) ensures false {
      OneSession(log, sid, t, a);
    }
  }

  lemma ViewerIsKnown(s: Session, sid: Sid, log: set<Accepted>)
    requires SessionLogged(s, sid, log)
    ensures forall a | a in AddrsOf(s.viewer) :: Knows(log, sid, a)
  {
  }

  /** What one use each says about one session */
  lemma SessionUses(st: Relay, sid: Sid)
    requires UsesOnce(st) && sid in st.sessions
    ensures var s := st.sessions[sid];
            && AddrsOf(s.streamer) !! AddrsOf(s.viewer)
            && (forall e | e in s.spectators ::
                e.Addresses() !! AddrsOf(s.streamer) && e.Addresses() !! AddrsOf(s.viewer))
            && (s.IsReady() ==> FourDistinct(s) && ViewerDoesNotSpectate(s))
  {
    LiveIsLogged(st);
    var s, log := st.sessions[sid], LiveLog(st);
    assert SessionLogged(s, sid, log);
    RolesApart(s, sid, log);
    if s.IsReady() {
      OwnPeers(s, sid, log);
    }
    hide LiveLog, SessionLogged, AddrsOf, FourDistinct, ViewerDoesNotSpectate;
  }

  // ---------------------------------------------------------------- a spectator is removed

  /** Nothing new is used: sessions lose peers or spectators, or go. */
  lemma FewerLiveUses(st: Relay, after: Relay)
    requires UsesOnce(st) && LiveLog(after) <= LiveLog(st)
    ensures UsesOnce(after)
  {
    hide LiveLog;
    FewerUses(LiveLog(after), LiveLog(st));
  }

  lemma RemovingUsesLess(st: Relay, addr: Address)
    ensures LiveLog(RemoveSpectator(st, addr)) <= LiveLog(st)
  {
    var after := RemoveSpectator(st, addr);
    hide RemoveTargets;
    forall t | t in after.sessions
      ensures t in st.sessions && SamePorts(st.sessions[t], after.sessions[t])
      ensures forall e | e in after.sessions[t].spectators :: e in st.sessions[t].spectators
    {
    }
    hide RemoveSpectator;
  }

  lemma RemovingOneFits(mappings: map<Address, Mapping>, s: Session, i: nat)
    requires Fits(mappings, s) && Grouped(s.spectators) && i < |s.spectators|
    requires forall e | e in s.spectators :: e.Addresses() !! AddrsOf(s.streamer) && e.Addresses() !! AddrsOf(s.viewer)
    requires s.IsReady() ==> FourDistinct(s) && ViewerDoesNotSpectate(s)
    ensures Fits(RemoveTargets(mappings, s.streamer, s.spectators[i].Addresses()), RemoveSpectatorAt(s, i))
  {
    var s', gone := RemoveSpectatorAt(s, i), s.spectators[i].Addresses();
    assert s.spectators[i] in s.spectators && SamePorts(s, s') && s'.addresses == s.addresses - gone;
    if s.IsReady() {
      RemovedLeaves(s, i);
      NotTheViewers(s, i);
      RemovedTargets(mappings, s.streamer, gone);
      TwoAddresses(s.streamer);
      hide RemoveSpectatorAt, RemoveTargets, AddrsOf, Leaves, Audience, ViewerDoesNotSpectate, FourDistinct, Grouped;
      LeavingKeepsTargets(mappings, RemoveTargets(mappings, s.streamer, gone), s, s', gone);
    }
  }

  lemma FitsFor(st: Relay, t: Sid)
    requires AllFit(st) && t in st.sessions
    ensures Fits(st.mappings, st.sessions[t]) && Grouped(st.sessions[t].spectators)
  {
    hide Fits, Grouped;
  }

  lemma RemovingFits(st: Relay, addr: Address)
    requires AllFit(st) && UsesOnce(st)
    ensures AllFit(RemoveSpectator(st, addr)) && UsesOnce(RemoveSpectator(st, addr))
  {
    hide *;
    FitsParts(st);
    RemoveSpectatorKeeps(st, addr);
    RemovingUsesLess(st, addr);
    var after := RemoveSpectator(st, addr);
    FewerLiveUses(st, after);
    if after != st {
      var sid, i := RemovingShape(st, addr);
      var s := st.sessions[sid];
      FitsFor(st, sid);
      SessionUses(st, sid);
      RemovingOneFits(st.mappings, s, i);
      RemovingOutside(st.mappings, s.streamer, s.spectators[i].Addresses());
      forall t | t in after.sessions ensures Fits(after.mappings, after.sessions[t]) {
        if t != sid {
          FitsFor(st, t);
          PeersApart(st, sid, t);
          FitsOutside(st.mappings, after.mappings, AddrsOf(s.streamer), st.sessions[t]);
        }
      }
      MakesFit(after);
    }
  }

  lemma RemovingOutside(mappings: map<Address, Mapping>, streamer: Ports, gone: set<Address>)
    ensures SameOutside(mappings, RemoveTargets(mappings, streamer, gone), AddrsOf(streamer))
  {
    hide AddrsOf;
  }

  lemma FitsParts(st: Relay)
    requires AllFit(st)
    ensures Inv(st)
  {
  }

  lemma MakesFit(st: Relay)
    requires Inv(st) && forall t | t in st.sessions :: Fits(st.mappings, st.sessions[t])
    ensures AllFit(st)
  {
  }

  // ---------------------------------------------------------------- a streamer or viewer registers

  lemma AttachingOutside(mappings: map<Address, Mapping>, s: Session, addrs: set<Address>, now: Time)
    ensures SameOutside(mappings, AttachSpectators(mappings, s, addrs, now), AddrsOf(s.streamer))
  {
    assert Full(s.streamer) ==>
        s.streamer[Video].addr in AddrsOf(s.streamer) && s.streamer[Control].addr in AddrsOf(s.streamer);
    hide AddrsOf, FoundTargets;
  }

  /** Rebuilding changes only what the session has on record, its peers included. */
  lemma UpdatingOutside(st: Relay, sid: Sid, now: Time)
    requires sid in st.sessions && st.sessions[sid].IsReady()
    requires PeerAddresses(st.sessions[sid]) <= st.sessions[sid].addresses
    ensures SameOutside(st.mappings, UpdateMappings(st, sid, now).mappings, st.sessions[sid].addresses)
  {
    var s := st.sessions[sid];
    assert NewMappings(s, now).Keys == PeerAddresses(s);
    hide NewMappings, PeerAddresses, Overwritten, Without;
    assert KeepTimestamps(st.mappings, NewMappings(s, now)).Keys == PeerAddresses(s);
  }

  lemma OutsideTwice(
      a: map<Address, Mapping>, b: map<Address, Mapping>, c: map<Address, Mapping>, one: set<Address>,
          two: set<Address>)
    requires SameOutside(a, b, one) && SameOutside(b, c, two) && two <= one
    ensures SameOutside(a, c, one)
  {
  }

  /** The new peer is on record, the others as before. */
  lemma OnRecordFits(st: Relay, sid: Sid, role: Role, port: PortType, addr: Address, now: Time)
    requires AllFit(st) && role != Spectator
    ensures var st2 := RecordPeer(st, sid, role, port, addr, now);
            && sid in st2.sessions && st2.mappings == st.mappings
            && AddrsOf(st2.sessions[sid].streamer) <= st2.sessions[sid].addresses
            && AddrsOf(st2.sessions[sid].viewer) <= st2.sessions[sid].addresses
            && (forall t | t in st2.sessions && t != sid :: t in st.sessions && st2.sessions[t] == st.sessions[t])
  {
    if sid in st.sessions {
      FitsFor(st, sid);
    }
    hide AllFit, TargetsExact;
  }

  lemma PeersOfReady(s: Session)
    requires s.IsReady()
    ensures PeerAddresses(s) == AddrsOf(s.streamer) + AddrsOf(s.viewer)
  {
    TwoAddresses(s.streamer);
    TwoAddresses(s.viewer);
  }

  /** A session that survives another one's registration shares no address with it. */
  lemma RegisteringOutside(st: Relay, sid: Sid, role: Role, port: PortType, addr: Address, now: Time, t: Sid)
    requires AllFit(st) && role != Spectator && t != sid
    ensures var after := RegisterPeer(st, sid, role, port, addr, now);
            t in after.sessions ==>
              t in st.sessions && after.sessions[t] == st.sessions[t] && Fits(after.mappings, after.sessions[t])
  {
    OnRecordFits(st, sid, role, port, addr, now);
    if t in RegisterPeer(st, sid, role, port, addr, now).sessions {
      hide RecordPeer, AllFit, Fits, AttachSpectators, CompleteAddresses, UpdateMappings, SameOutside, AddrsOf;
      var st2 := RecordPeer(st, sid, role, port, addr, now);
      var s := st2.sessions[sid];
      if s.IsReady() {
        var st3 := UpdateMappings(st2, sid, now);
        SurvivorsShareNothing(st2, sid, now, t);
        PeersOfReady(s);
        UpdatingOutside(st2, sid, now);
        AttachingOutside(st3.mappings, s, CompleteAddresses(s), now);
        OutsideTwice(st2.mappings, st3.mappings, AttachSpectators(st3.mappings, s, CompleteAddresses(s), now),
                     s.addresses, AddrsOf(s.streamer));
        FitsFor(st, t);
        PeersOnRecord(st.mappings, st.sessions[t]);
        FitsOutside(st.mappings, AttachSpectators(st3.mappings, s, CompleteAddresses(s), now), s.addresses,
            st.sessions[t]);
      } else {
        FitsFor(st, t);
      }
    }
  }

  lemma PeersOnRecord(mappings: map<Address, Mapping>, s: Session)
    requires Fits(mappings, s)
    ensures AddrsOf(s.streamer) <= s.addresses && AddrsOf(s.viewer) <= s.addresses
  {
  }

  lemma SurvivorsShareNothing(st: Relay, sid: Sid, now: Time, t: Sid)
    requires sid in st.sessions && st.sessions[sid].IsReady() && t != sid
    ensures var after := UpdateMappings(st, sid, now).sessions;
            t in after ==>
              && t in st.sessions && after[t] == st.sessions[t]
              && st.sessions[sid].addresses !! st.sessions[t].addresses
  {
    hide NewMappings, KeepTimestamps, Without;
    if t in UpdateMappings(st, sid, now).sessions {
      assert t !in Overwritten(st, sid);
      Apart(st.sessions[t].addresses, st.sessions[sid].addresses);
    }
  }

  lemma Apart(one: set<Address>, two: set<Address>)
    requires one * two == {}
    ensures two !! one
  {
    assert forall a | a in one && a in two :: a in one * two;
  }

  lemma RegisteringFits(st: Relay, sid: Sid, role: Role, port: PortType, addr: Address, now: Time)
    requires AllFit(st) && role != Spectator && UsesOnce(RegisterPeer(st, sid, role, port, addr, now))
    ensures AllFit(RegisterPeer(st, sid, role, port, addr, now))
  {
    hide *;
    FitsParts(st);
    RegisterPeerKeeps(st, sid, role, port, addr, now);
    var after := RegisterPeer(st, sid, role, port, addr, now);
    forall t | t in after.sessions ensures Fits(after.mappings, after.sessions[t]) {
      if t != sid {
        RegisteringOutside(st, sid, role, port, addr, now, t);
      } else {
        SessionUses(after, sid);
        RegisteringIsExact(st, sid, role, port, addr, now);
        RegisteredOnRecord(st, sid, role, port, addr, now);
        ExactFits(after, sid);
      }
    }
    MakesFit(after);
  }

  lemma RegisteredOnRecord(st: Relay, sid: Sid, role: Role, port: PortType, addr: Address, now: Time)
    requires AllFit(st) && role != Spectator
    ensures var after := RegisterPeer(st, sid, role, port, addr, now).sessions;
            && sid in after && AddrsOf(after[sid].streamer) <= after[sid].addresses
            && AddrsOf(after[sid].viewer) <= after[sid].addresses
  {
    FitsParts(st);
    OnRecordFits(st, sid, role, port, addr, now);
    RegisteredShape(st, sid, role, port, addr, now);
    hide RegisterPeer, RecordPeer, AllFit, AddrsOf, Inv, Grouped, UpdateMappings;
  }

  lemma ExactFits(st: Relay, sid: Sid)
    requires sid in st.sessions
    requires st.sessions[sid].IsReady() ==> FourDistinct(st.sessions[sid])
    requires ReadyAndDistinct(st, sid) ==> TableExact(st, sid)
    requires AddrsOf(st.sessions[sid].streamer) <= st.sessions[sid].addresses
    requires AddrsOf(st.sessions[sid].viewer) <= st.sessions[sid].addresses
    ensures Fits(st.mappings, st.sessions[sid])
  {
    hide AddrsOf, TargetsExact;
  }

  // ---------------------------------------------------------------- a spectator registers

  lemma JoiningOutside(st: Relay, sid: Sid, port: PortType, addr: Address, now: Time)
    ensures var after := RegisterSpectator(st, sid, port, addr, now);
            && sid in after.sessions
            && SameOutside(st.mappings, after.mappings, AddrsOf(after.sessions[sid].streamer))
            && (forall t | t in after.sessions && t != sid :: t in st.sessions && after.sessions[t] == st.sessions[t])
  {
    hide AttachSpectators, RemoveTargets, SpectatorJoins, IndexEntry, AddrsOf, SameOutside;
    var (s, gone) := SpectatorJoins(st, sid, port, addr, now);
    var mappings := RemoveTargets(st.mappings, s.streamer, gone);
    RemovingOutside(st.mappings, s.streamer, gone);
    AttachingOutside(mappings, s, {addr}, now);
    OutsideTwice(st.mappings, mappings, AttachSpectators(mappings, s, {addr}, now), AddrsOf(s.streamer),
        AddrsOf(s.streamer));
  }

  /** What a spectator gives up is an address of a spectator. */
  lemma JoinedOnRecord(s: Session, port: PortType, peer: PeerEntry, uid: nat)
    requires AddrsOf(s.streamer) <= s.addresses && AddrsOf(s.viewer) <= s.addresses
    requires forall e | e in s.spectators :: e.Addresses() !! AddrsOf(s.streamer) && e.Addresses() !! AddrsOf(s.viewer)
    ensures var s' := RegisterSpectatorPort(s, port, peer, uid).0;
            SamePorts(s, s') && AddrsOf(s.streamer) <= s'.addresses && AddrsOf(s.viewer) <= s'.addresses
  {
    var slot := SpectatorSlot(s, peer.addr.ip, uid);
    hide SpectatorSlot;
    if slot.0 < |s.spectators| {
      assert slot.1 in s.spectators;
      if port in slot.1.ports {
        assert slot.1.ports[port].addr in slot.1.Addresses();
      }
    }
    hide AddrsOf;
  }

  lemma JoinedIs(st: Relay, sid: Sid, port: PortType, addr: Address, now: Time)
    ensures var after := RegisterSpectator(st, sid, port, addr, now);
            var peer := PeerEntry(addr, if addr in st.tcp then Tcp else Udp, now);
            && sid in after.sessions
            && after.sessions[sid] == RegisterSpectatorPort(SetDefault(st, sid, now).sessions[sid], port, peer,
                st.nextUid).0
  {
    hide RegisterSpectatorPort, AttachSpectators, RemoveTargets;
  }

  lemma JoiningOwnFits(st: Relay, sid: Sid, port: PortType, addr: Address, now: Time)
    requires AllFit(st) && UsesOnce(st)
    ensures var after := RegisterSpectator(st, sid, port, addr, now);
            sid in after.sessions && Fits(after.mappings, after.sessions[sid])
  {
    FitsParts(st);
    JoinedIs(st, sid, port, addr, now);
    var after := RegisterSpectator(st, sid, port, addr, now);
    var peer := PeerEntry(addr, if addr in st.tcp then Tcp else Udp, now);
    if sid in st.sessions {
      var s := st.sessions[sid];
      FitsFor(st, sid);
      SessionUses(st, sid);
      hide RegisterSpectator, RegisterSpectatorPort, AllFit, UsesOnce, AddrsOf, TargetsExact, Inv, Grouped,
           ViewerDoesNotSpectate, FourDistinct;
      JoinedOnRecord(s, port, peer, st.nextUid);
      if s.IsReady() {
        JoiningKeepsTargetsExact(st, sid, port, addr, now);
      }
    } else {
      NobodyThere(sid, now);
      hide RegisterSpectator, RegisterSpectatorPort, AllFit, UsesOnce, AddrsOf, TargetsExact, Inv, EmptySession;
      JoinedOnRecord(EmptySession(sid, now), port, peer, st.nextUid);
    }
  }

  lemma NobodyThere(sid: Sid, now: Time)
    ensures var s := EmptySession(sid, now);
            s.spectators == [] && AddrsOf(s.streamer) == {} && AddrsOf(s.viewer) == {} && !s.IsReady()
  {
  }

  lemma JoiningFits(st: Relay, sid: Sid, port: PortType, addr: Address, now: Time)
    requires AllFit(st) && UsesOnce(st)
    ensures AllFit(RegisterSpectator(st, sid, port, addr, now))
  {
    hide *;
    FitsParts(st);
    RegisterSpectatorKeeps(st, sid, port, addr, now);
    JoiningOutside(st, sid, port, addr, now);
    JoiningOwnFits(st, sid, port, addr, now);
    StreamerStays(st, sid, port, addr, now);
    var after := RegisterSpectator(st, sid, port, addr, now);
    forall t | t in after.sessions ensures Fits(after.mappings, after.sessions[t]) {
      if t != sid {
        FitsFor(st, t);
        if sid in st.sessions {
          PeersApart(st, sid, t);
        }
        FitsOutside(st.mappings, after.mappings, AddrsOf(after.sessions[sid].streamer), st.sessions[t]);
      }
    }
    MakesFit(after);
  }

  lemma StreamerStays(st: Relay, sid: Sid, port: PortType, addr: Address, now: Time)
    ensures var after := RegisterSpectator(st, sid, port, addr, now);
            && sid in after.sessions
            && AddrsOf(after.sessions[sid].streamer) == if sid in st.sessions then AddrsOf(st.sessions[sid].streamer)
                else {}
  {
    JoinedIs(st, sid, port, addr, now);
    NobodyThere(sid, now);
    hide RegisterSpectator, AddrsOf, SpectatorSlot;
  }

  // ---------------------------------------------------------------- a cleanup pass

  lemma CleaningOwnFits(
      st: Relay, after: map<Address, Mapping>, s': Session, t: Sid, now: Time, timeout: Time, alive: set<nat>)
    requires UsesOnce(st) && t in st.sessions && Fits(st.mappings, st.sessions[t]) && Grouped(st.sessions[t].spectators)
    requires SessionCleaned(st, st.sessions[t], s', now, timeout, alive)
    requires s'.addresses == st.sessions[t].addresses
                             - RoleAddresses(st.mappings, st.sessions[t], Streamer, now, timeout)
                             - RoleAddresses(st.mappings, st.sessions[t], Viewer, now, timeout)
                             - SilentAddresses(st.tcp, st.sessions[t], now, alive)
    requires forall a :: MappingCleaned(st, after, a, now, timeout, alive)
    ensures Fits(after, s')
  {
    hide *;
    var s := st.sessions[t];
    SessionUses(st, t);
    PeersOnRecord(st.mappings, s);
    CleanedOnRecord(st, s, s', now, timeout, alive);
    if s'.IsReady() {
      ReadyWasBusy(st, s, s', now, timeout, alive);
      SilentSpectate(st.tcp, s, now, alive);
      FilteredLeaves(st.tcp, s, now, alive);
      SpectatorsCleaned(st, s, s', now, timeout, alive);
      LiveIsLogged(st);
      UsesOnceIsOneUse(st);
      TargetsOf(st.mappings, s);
      forall a | a in PeerAddresses(s) && a in st.mappings
        ensures a in after
        ensures after[a].targets == if a in AddrsOf(s.streamer)
                  then st.mappings[a].targets - SilentAddresses(st.tcp, s, now, alive)
                                    else st.mappings[a].targets
      {
        PeerAfterCleanup(st, after, t, LiveLog(st), a, now, timeout, alive);
      }
      LeavingKeepsTargets(st.mappings, after, s, s', SilentAddresses(st.tcp, s, now, alive));
      ExactMeansFits(after, s');
    } else {
      FitsNotReady(after, s');
    }
  }

  lemma UsesOnceIsOneUse(st: Relay)
    requires UsesOnce(st)
    ensures OneUse(LiveLog(st))
  {
  }

  lemma TargetsOf(mappings: map<Address, Mapping>, s: Session)
    requires Fits(mappings, s) && s.IsReady()
    ensures TargetsExact(mappings, s)
  {
  }

  lemma ExactMeansFits(mappings: map<Address, Mapping>, s: Session)
    requires s.IsReady() && TargetsExact(mappings, s)
    requires AddrsOf(s.streamer) <= s.addresses && AddrsOf(s.viewer) <= s.addresses
    ensures Fits(mappings, s)
  {
  }

  /** What leaves the record belongs to emptied roles and silent spectators. */
  lemma CleanedOnRecord(st: Relay, s: Session, s': Session, now: Time, timeout: Time, alive: set<nat>)
    requires AddrsOf(s.streamer) <= s.addresses && AddrsOf(s.viewer) <= s.addresses
    requires AddrsOf(s.streamer) !! AddrsOf(s.viewer)
    requires forall e | e in s.spectators :: e.Addresses() !! AddrsOf(s.streamer) && e.Addresses() !! AddrsOf(s.viewer)
    requires SessionCleaned(st, s, s', now, timeout, alive)
    requires s'.addresses == s.addresses
                             - RoleAddresses(st.mappings, s, Streamer, now, timeout)
                             - RoleAddresses(st.mappings, s, Viewer, now, timeout)
                             - SilentAddresses(st.tcp, s, now, alive)
    ensures AddrsOf(s'.streamer) <= s'.addresses && AddrsOf(s'.viewer) <= s'.addresses
  {
    NothingIn();
    assert forall a | a in SilentAddresses(st.tcp, s, now, alive) ::
        a !in AddrsOf(s.streamer) && a !in AddrsOf(s.viewer);
    hide Idle, Filtered, SilentAddresses, AddrsOf;
  }

  lemma NothingIn()
    ensures AddrsOf(map[]) == {}
  {
  }

  lemma CleaningFits(st: Relay, now: Time, timeout: Time, alive: set<nat>)
    requires AllFit(st) && UsesOnce(st)
    ensures AllFit(Cleanup(st, now, timeout, alive))
  {
    hide *;
    FitsParts(st);
    var tcp, after := DropDeadTargets(st, alive), Cleanup(st, now, timeout, alive);
    CleanupKeeps(st, now, timeout, alive);
    CleanupExactly(st, now, timeout, alive);
    OnlyTargetsDropped(st, alive);
    SameUses(st, tcp);
    forall t | t in after.sessions ensures Fits(after.mappings, after.sessions[t]) {
      CleanedInto(tcp, after, t, now, timeout, alive);
      FitsFor(st, t);
      AddressesAfterCleanup(st, t, now, timeout, alive);
      CleaningOwnFits(tcp, after.mappings, after.sessions[t], t, now, timeout, alive);
    }
    MakesFit(after);
  }

  lemma SameUses(st: Relay, after: Relay)
    requires UsesOnce(st) && after.sessions == st.sessions
    ensures UsesOnce(after)
  {
    assert LiveLog(after) == LiveLog(st);
    hide LiveLog;
  }

  // ---------------------------------------------------------------- runs

  lemma SameTableFits(st: Relay, after: Relay)
    requires AllFit(st) && Inv(after) && after.sessions.Keys == st.sessions.Keys
               && after.mappings.Keys == st.mappings.Keys
    requires forall a | a in st.mappings :: after.mappings[a].targets == st.mappings[a].targets
    requires forall t | t in st.sessions :: LikeIt(st.sessions[t], after.sessions[t])
    ensures AllFit(after)
  {
    hide Inv, LikeIt;
    forall t | t in after.sessions ensures Fits(after.mappings, after.sessions[t]) {
      LikeItFits(st.mappings, after.mappings, st.sessions[t], after.sessions[t]);
    }
  }

  /** The same session with other time stamps */
  ghost predicate LikeIt(s: Session, s': Session) {
    && SamePorts(s, s') && s'.addresses == s.addresses && |s'.spectators| == |s.spectators|
    && forall i | 0 <= i < |s.spectators| :: s'.spectators[i].ports == s.spectators[i].ports
  }

  lemma LikeItFits(before: map<Address, Mapping>, after: map<Address, Mapping>, s: Session, s': Session)
    requires Fits(before, s) && LikeIt(s, s') && after.Keys == before.Keys
    requires forall a | a in before :: after[a].targets == before[a].targets
    ensures Fits(after, s')
  {
    SamePortsSameAudience(s, s', Video);
    SamePortsSameAudience(s, s', Control);
    hide Audience, AddrsOf;
  }

  lemma StepFits(st: Relay, ev: Event)
    requires AllFit(st) && UsesOnce(st) && UsesOnce(Step(st, ev))
    ensures AllFit(Step(st, ev))
  {
    hide *;
    FitsParts(st);
    StepKeeps(st, ev);
    match ev
    case Announced(role, port, sid, addr, store, now) => AnnouncementFits(st, ev);
    case TcpConnected(addr, target) => QuietStep(st, ev);
    case DataPacket(addr, now) => QuietStep(st, ev);
    case StrayPacket(addr, now) => QuietStep(st, ev);
    case CleanupPass(now, timeout, alive) =>
      CleaningFits(st, now, timeout, alive);
      CleanupStep(st, ev);
  }

  lemma CleanupStep(st: Relay, ev: Event)
    requires ev.CleanupPass?
    ensures Step(st, ev) == Cleanup(st, ev.now, ev.timeout, ev.alive)
  {
  }

  lemma AnnouncementFits(st: Relay, ev: Event)
    requires AllFit(st) && UsesOnce(st) && UsesOnce(Step(st, ev)) && ev.Announced?
    ensures AllFit(Step(st, ev))
  {
    hide AllFit, UsesOnce, RemoveSpectator, RegisterSpectator, RegisterPeer, ParseRole, ParsePort;
    RemovingFits(st, ev.addr);
    match Accepts(ev.role, ev.port, ev.sid, ev.store) {
      case None =>
      case Some(Target(actual, Spectator, p)) => JoiningFits(st, actual, p, ev.addr, ev.now);
      case Some(Target(actual, r, p)) => RegisteringFits(RemoveSpectator(st, ev.addr), actual, r, p, ev.addr, ev.now);
    }
  }

  /** A connection, a packet or a heartbeat changes time stamps at most. */
  lemma QuietStep(st: Relay, ev: Event)
    requires AllFit(st) && Inv(Step(st, ev)) && (ev.TcpConnected? || ev.DataPacket? || ev.StrayPacket?)
    ensures AllFit(Step(st, ev))
  {
    hide AllFit, Inv;
    var after := Step(st, ev);
    assert after.mappings.Keys == st.mappings.Keys;
    SameTableFits(st, after);
  }

  /**
   * In every run in which at no time an address has two uses, the targets of every ready session
   * are exact: streamer and viewer reach each other port by port, complete spectators listen to the
   * streamer, and nobody else receives anything from them.
   */
  lemma {:induction false} TargetsAlwaysExact(events: seq<Event>)
    requires forall k | 0 <= k <= |events| :: UsesOnce(Run(events[..k]))
    ensures AllFit(Run(events))
    ensures forall sid | sid in Run(events).sessions && Run(events).sessions[sid].IsReady() ::
              TargetsExact(Run(events).mappings, Run(events).sessions[sid])
  {
    hide UsesOnce, TargetsExact, Step, Inv;
    if events != [] {
      var n := |events| - 1;
      assert forall k | 0 <= k <= n :: events[..n][..k] == events[..k];
      TargetsAlwaysExact(events[..n]);
      assert UsesOnce(Run(events[..n])) && events[..|events|] == events && UsesOnce(Run(events[..|events|]));
      StepFits(Run(events[..n]), events[n]);
    } else {
      AlwaysGrouped(events);
    }
  }

  /** Runs whose whole log has one use for each address are among these. */
  lemma OneUseIsLive(events: seq<Event>, k: nat)
    requires k <= |events|
    ensures OneUse(Log(events)) ==> UsesOnce(Run(events[..k]))
  {
    hide *;
    LogOfPrefix(events, k);
    AlwaysLogged(events[..k]);
    LiveWasAccepted(Run(events[..k]), Log(events[..k]));
    if OneUse(Log(events)) {
      FewerUses(Log(events[..k]), Log(events));
    }
  }

  lemma AlwaysLogged(events: seq<Event>)
    ensures AllLogged(Run(events).sessions, Log(events))
  {
    AlwaysSafe(events);
  }

  lemma {:induction false} LogOfPrefix(events: seq<Event>, k: nat)
    requires k <= |events|
    ensures Log(events[..k]) <= Log(events)
  {
    hide LogOf;
    if k < |events| {
      assert events[..|events| - 1][..k] == events[..k];
      LogOfPrefix(events[..|events| - 1], k);
    } else {
      assert events[..k] == events;
    }
  }
}
