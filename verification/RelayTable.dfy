/**
 * What the forwarding table says about a ready session: exactly which address sends to
 * which, that registering establishes it, and that announcing again changes nothing.
 */
module RelayTable {
  import opened RelayTypes
  import opened RelaySpec
  import opened SpectatorGrouping

  /** The addresses that complete spectators listen on for port `p`. */
  ghost function Audience(s: Session, p: PortType): set<Address> {
    set i | 0 <= i < |s.spectators| && s.spectators[i].IsComplete() :: s.spectators[i].PortAddr(p)
  }

  ghost predicate FourDistinct(s: Session) {
    s.IsReady() &&
    var sv, sc, vv, vc := s.streamer[Video].addr, s.streamer[Control].addr, s.viewer[Video].addr,
        s.viewer[Control].addr;
    sv != sc && sv != vv && sv != vc && sc != vv && sc != vc && vv != vc
  }

  ghost function PeerAddresses(s: Session): set<Address>
    requires s.IsReady()
  {
    {s.streamer[Video].addr, s.streamer[Control].addr, s.viewer[Video].addr, s.viewer[Control].addr}
  }

  ghost predicate SendsTo(mappings: map<Address, Mapping>, a: Address, targets: set<Address>) {
    a in mappings && mappings[a].targets == targets
  }

  /** Streamer and viewer reach each other port by port; complete spectators listen to the streamer. */
  ghost predicate TargetsExact(mappings: map<Address, Mapping>, s: Session)
    requires s.IsReady()
  {
    && SendsTo(mappings, s.streamer[Video].addr, {s.viewer[Video].addr} + Audience(s, Video))
    && SendsTo(mappings, s.streamer[Control].addr, {s.viewer[Control].addr} + Audience(s, Control))
    && SendsTo(mappings, s.viewer[Video].addr, {s.streamer[Video].addr})
    && SendsTo(mappings, s.viewer[Control].addr, {s.streamer[Control].addr})
  }

  /** The table, restricted to the addresses the session has on record, is exactly the session's. */
  ghost predicate TableExact(st: Relay, sid: Sid) {
    && sid in st.sessions && FourDistinct(st.sessions[sid])
    && var s := st.sessions[sid];
    && TargetsExact(st.mappings, s)
    && (forall a | a in s.addresses && a in st.mappings :: a in PeerAddresses(s))
    && (forall t | t in st.sessions && t != sid :: st.sessions[t].addresses !! s.addresses)
  }

  // ---------------------------------------------------------------- spectators are found

  /** Looking up all addresses of complete spectators finds exactly the complete spectators. */
  lemma AllCompleteAreFound(s: Session, p: PortType)
    requires Grouped(s.spectators)
    ensures FoundTargets(s, p, CompleteAddresses(s)) == Audience(s, p)
  {
    var addrs := CompleteAddresses(s);
    forall i | 0 <= i < |s.spectators| && s.spectators[i].IsComplete()
      ensures s.spectators[i].PortAddr(p) in FoundTargets(s, p, addrs)
    {
      var a := s.spectators[i].PortAddr(Video);
      assert a in s.spectators[i].Addresses() && a in addrs;
      LookupIsUnambiguous(s.spectators, i, a);
    }
  }

  /** Looking up one address finds its entry, if that is complete. */
  lemma OneIsFound(s: Session, p: PortType, i: nat, addr: Address)
    requires Grouped(s.spectators) && i < |s.spectators| && addr in s.spectators[i].Addresses()
    ensures FoundTargets(s, p, {addr}) == if s.spectators[i].IsComplete() then {s.spectators[i].PortAddr(p)} else {}
  {
    LookupIsUnambiguous(s.spectators, i, addr);
    if s.spectators[i].IsComplete() {
      assert s.spectators[i].PortAddr(p) in FoundTargets(s, p, {addr});
    }
  }

  // ---------------------------------------------------------------- registering a streamer or viewer

  /** The spectators that listen to `key`. */
  ghost function Listeners(s: Session, key: Address): set<Address>
    requires Full(s.streamer)
  {
    (if key == s.streamer[Video].addr then Audience(s, Video) else {}) +
    (if key == s.streamer[Control].addr then Audience(s, Control) else {})
  }

  /** What attaching all complete spectators does at one key. */
  lemma AttachAt(mappings: map<Address, Mapping>, s: Session, now: Time, key: Address)
    requires Grouped(s.spectators) && Full(s.streamer) && key in mappings
    ensures var after := AttachSpectators(mappings, s, CompleteAddresses(s), now);
            && key in after
            && after[key].targets == mappings[key].targets + Listeners(s, key)
            && (Listeners(s, key) == {} ==> after[key] == mappings[key])
  {
    AllCompleteAreFound(s, Video);
    AllCompleteAreFound(s, Control);
    hide FoundTargets, CompleteAddresses, Audience, Grouped;
    assert AddedTargets(s, key, CompleteAddresses(s)) == Listeners(s, key);
  }

  /** Streamer and viewer are connected port by port, nobody else listens yet. */
  ghost predicate Connected(mappings: map<Address, Mapping>, s: Session)
    requires s.IsReady()
  {
    && SendsTo(mappings, s.streamer[Video].addr, {s.viewer[Video].addr})
    && SendsTo(mappings, s.streamer[Control].addr, {s.viewer[Control].addr})
    && SendsTo(mappings, s.viewer[Video].addr, {s.streamer[Video].addr})
    && SendsTo(mappings, s.viewer[Control].addr, {s.streamer[Control].addr})
  }

  /** The table right after the four ports of a ready session have been connected. */
  lemma ConnectedTable(st: Relay, sid: Sid, now: Time)
    requires sid in st.sessions && FourDistinct(st.sessions[sid])
    ensures var s := st.sessions[sid];
            var after := UpdateMappings(st, sid, now);
            && Connected(after.mappings, s)
            && (forall a | a in s.addresses && a in after.mappings :: a in PeerAddresses(s))
            && (forall t | t in after.sessions && t != sid :: after.sessions[t].addresses !! s.addresses)
            && sid in after.sessions && after.sessions[sid] == s
  {
    hide Without;
    var s := st.sessions[sid];
    assert NewMappings(s, now).Keys == PeerAddresses(s);
  }

  /** Attaching all complete spectators to a connected table makes the targets exact. */
  lemma AttachingIsExact(connected: map<Address, Mapping>, s: Session, now: Time)
    requires FourDistinct(s) && Grouped(s.spectators) && Connected(connected, s)
    ensures TargetsExact(AttachSpectators(connected, s, CompleteAddresses(s), now), s)
    ensures AttachSpectators(connected, s, CompleteAddresses(s), now).Keys == connected.Keys
  {
    hide AttachSpectators, CompleteAddresses, Audience, Grouped;
    AttachAt(connected, s, now, s.streamer[Video].addr);
    AttachAt(connected, s, now, s.streamer[Control].addr);
    AttachAt(connected, s, now, s.viewer[Video].addr);
    AttachAt(connected, s, now, s.viewer[Control].addr);
    AttachKeys(connected, s, CompleteAddresses(s), now);
  }

  lemma RegisteredShape(st: Relay, sid: Sid, role: Role, port: PortType, addr: Address, now: Time)
    requires Inv(st) && role != Spectator
    ensures var st2, after := RecordPeer(st, sid, role, port, addr, now), RegisterPeer(st, sid, role, port, addr, now);
            && sid in st2.sessions && sid in after.sessions && after.sessions[sid] == st2.sessions[sid]
                && Grouped(st2.sessions[sid].spectators)
            && (st2.sessions[sid].IsReady() ==>
                  var st3 := UpdateMappings(st2, sid, now);
                  && after.sessions == st3.sessions
                  && after.mappings == AttachSpectators(st3.mappings, st2.sessions[sid],
                      CompleteAddresses(st2.sessions[sid]), now))
  {
    hide AttachSpectators, Grouped, NewMappings, KeepTimestamps, CompleteAddresses;
    SetDefaultKeeps(st, sid, now);
  }

  /** Registering into a ready session with four distinct peer addresses makes the table exact. */
  lemma RegisteringIsExact(st: Relay, sid: Sid, role: Role, port: PortType, addr: Address, now: Time)
    requires Inv(st) && role != Spectator
    ensures ReadyAndDistinct(RegisterPeer(st, sid, role, port, addr, now), sid) ==>
              TableExact(RegisterPeer(st, sid, role, port, addr, now), sid)
  {
    hide UpdateMappings, AttachSpectators, CompleteAddresses, Grouped, RegisterPeer, Connected, TargetsExact, Inv,
        RecordPeer;
    if ReadyAndDistinct(RegisterPeer(st, sid, role, port, addr, now), sid) {
      RegisteredShape(st, sid, role, port, addr, now);
      var st2 := RecordPeer(st, sid, role, port, addr, now);
      ConnectedTable(st2, sid, now);
      AttachingIsExact(UpdateMappings(st2, sid, now).mappings, st2.sessions[sid], now);
    }
  }

  /** The session is ready, and its four peers have different addresses. */
  ghost predicate ReadyAndDistinct(st: Relay, sid: Sid) {
    sid in st.sessions && FourDistinct(st.sessions[sid])
  }

  lemma AttachKeys(mappings: map<Address, Mapping>, s: Session, addrs: set<Address>, now: Time)
    requires s.IsReady()
    ensures mappings.Keys <= AttachSpectators(mappings, s, addrs, now).Keys <= mappings.Keys + PeerAddresses(s)
  {
    hide FoundTargets;
  }

  /**
   * After any run, when a streamer or viewer has registered into a session that is then
   * ready with four distinct peer addresses, the table is exactly that session's on all
   * addresses the session has on record, and no other session shares one of them.
   */
  lemma TableAfterRegistration(events: seq<Event>, ev: Event, target: Target)
    requires ev.Announced? && Accepts(ev.role, ev.port, ev.sid, ev.store) == Some(target) && target.role != Spectator
    ensures ReadyAndDistinct(Run(events + [ev]), target.sid) ==> TableExact(Run(events + [ev]), target.sid)
  {
    var all := events + [ev];
    assert all[..|all| - 1] == events;
    AlwaysGrouped(events);
    RemoveSpectatorKeeps(Run(events), ev.addr);
    hide Inv, RegisterPeer, RemoveSpectator, TableExact, ReadyAndDistinct;
    RegisteringIsExact(RemoveSpectator(Run(events), ev.addr), target.sid, target.role, target.port, ev.addr, ev.now);
  }

  // ---------------------------------------------------------------- announcing again

  /** `addr` is already the session's peer for `role` and `port`. */
  ghost predicate AlreadyPeer(s: Session, role: Role, port: PortType, addr: Address) {
    match role
    case Streamer => port in s.streamer && s.streamer[port].addr == addr
    case Viewer => port in s.viewer && s.viewer[port].addr == addr
    case Spectator => false
  }

  ghost predicate NothingOverwritten(st: Relay, sid: Sid, addr: Address) {
    forall t | t in st.sessions && t != sid :: addr !in st.sessions[t].addresses
  }

  /** Connecting the ports again at most takes the spectators off the streamer's targets, for the moment. */
  ghost predicate Reconnected(before: map<Address, Mapping>, after: map<Address, Mapping>, s: Session)
    requires s.IsReady()
  {
    && after.Keys == before.Keys
    && (forall a | a in before && a !in AddrsOf(s.streamer) :: after[a] == before[a])
    && (Audience(s, Video) == {} && Audience(s, Control) == {} ==> after == before)
  }

  lemma ReconnectedTable(before: map<Address, Mapping>, st: Relay, sid: Sid, now: Time)
    requires sid in st.sessions && FourDistinct(st.sessions[sid]) && st.mappings == before
    requires TargetsExact(before, st.sessions[sid])
    requires forall a | a in st.sessions[sid].addresses && a in before :: a in PeerAddresses(st.sessions[sid])
    ensures Reconnected(before, UpdateMappings(st, sid, now).mappings, st.sessions[sid])
  {
    hide Without, Overwritten, Audience;
    var s := st.sessions[sid];
    assert NewMappings(s, now).Keys == PeerAddresses(s);
    var latest := KeepTimestamps(before, NewMappings(s, now));
    assert latest.Keys == PeerAddresses(s);
    assert UpdateMappings(st, sid, now).mappings == (before - s.addresses) + latest;
    assert latest[s.viewer[Video].addr] == before[s.viewer[Video].addr];
    assert latest[s.viewer[Control].addr] == before[s.viewer[Control].addr];
    assert s.streamer[Video].addr in AddrsOf(s.streamer) && s.streamer[Control].addr in AddrsOf(s.streamer);
  }

  /** Same peers at the same addresses, same spectators. */
  ghost predicate SamePeers(s: Session, s': Session) {
    && FourDistinct(s) && FourDistinct(s')
    && s'.spectators == s.spectators
    && s'.streamer[Video].addr == s.streamer[Video].addr && s'.streamer[Control].addr == s.streamer[Control].addr
    && s'.viewer[Video].addr == s.viewer[Video].addr && s'.viewer[Control].addr == s.viewer[Control].addr
  }

  /** What announcing again may change in the table: the time stamps of the streamer's keys, if there are spectators. */
  ghost predicate TableUnchanged(before: map<Address, Mapping>, after: map<Address, Mapping>, s: Session)
    requires s.IsReady()
  {
    && before.Keys == after.Keys
    && (forall a | a in before :: after[a].targets == before[a].targets)
    && (forall a | a in before && a !in AddrsOf(s.streamer) :: after[a] == before[a])
    && (Audience(s, Video) == {} && Audience(s, Control) == {} ==> after == before)
  }

  /** Putting the spectators back restores every target. */
  lemma AttachedAgain(before: map<Address, Mapping>, connected: map<Address, Mapping>, s: Session, now: Time)
    requires FourDistinct(s) && Grouped(s.spectators)
    requires TargetsExact(before, s) && Reconnected(before, connected, s) && Connected(connected, s)
    ensures TableUnchanged(before, AttachSpectators(connected, s, CompleteAddresses(s), now), s)
  {
    hide Grouped, CompleteAddresses, AttachSpectators, Audience;
    var after := AttachSpectators(connected, s, CompleteAddresses(s), now);
    AttachingIsExact(connected, s, now);
    assert forall a :: a in AddrsOf(s.streamer) <==> a == s.streamer[Video].addr || a == s.streamer[Control].addr by {
      TwoAddresses(s.streamer);
    }
    forall a | a in before
      ensures a !in AddrsOf(s.streamer) ==> after[a] == before[a]
      ensures Audience(s, Video) == {} && Audience(s, Control) == {} ==> after[a] == before[a]
      ensures after[a].targets == before[a].targets
    {
      AttachAt(connected, s, now, a);
    }
  }

  /** Connecting the ports of an exact table and putting the spectators back restores every target. */
  lemma UpdatedAgain(st: Relay, sid: Sid, now: Time)
    requires sid in st.sessions && FourDistinct(st.sessions[sid]) && Grouped(st.sessions[sid].spectators)
    requires TargetsExact(st.mappings, st.sessions[sid])
    requires forall a | a in st.sessions[sid].addresses && a in st.mappings :: a in PeerAddresses(st.sessions[sid])
    ensures var s := st.sessions[sid];
            TableUnchanged(st.mappings, AttachSpectators(UpdateMappings(st, sid, now).mappings, s,
                CompleteAddresses(s), now), s)
  {
    hide Connected, Reconnected, TableUnchanged, TargetsExact, UpdateMappings, AttachSpectators, CompleteAddresses,
        Grouped, PeerAddresses;
    ReconnectedTable(st.mappings, st, sid, now);
    ConnectedTable(st, sid, now);
    AttachedAgain(st.mappings, UpdateMappings(st, sid, now).mappings, st.sessions[sid], now);
  }

  lemma TwoAddresses(ports: Ports)
    requires Full(ports)
    ensures AddrsOf(ports) == {ports[Video].addr, ports[Control].addr}
  {
    forall a | a in AddrsOf(ports) ensures a == ports[Video].addr || a == ports[Control].addr {
      var p :| p in ports && ports[p].addr == a;
      match p case Video => case Control =>
    }
  }

  /**
   * Announcing a registered peer again, when its session's table is exact and nobody else
   * uses its address, leaves every target in the whole table as it was; only the streamer's
   * keys can get a new time stamp, and only when a complete spectator is attached.
   */
  lemma AnnouncingAgainIsIdempotent(st: Relay, sid: Sid, role: Role, port: PortType, addr: Address, now: Time)
    requires Inv(st) && TableExact(st, sid) && AlreadyPeer(st.sessions[sid], role, port, addr)
    requires NothingOverwritten(st, sid, addr)
    ensures var after := RegisterPeer(st, sid, role, port, addr, now);
            && TableUnchanged(st.mappings, after.mappings, st.sessions[sid])
            && after.sessions.Keys == st.sessions.Keys
            && (forall t | t in st.sessions && t != sid :: after.sessions[t] == st.sessions[t])
            && TableExact(after, sid)
  {
    hide *;
    ExactBasics(st, sid, role, port, addr);
    AgainUnchanged(st, sid, role, port, addr, now);
    StaysReady(RegisterPeer(st, sid, role, port, addr, now), sid);
    RegisteringIsExact(st, sid, role, port, addr, now);
  }

  lemma StaysReady(st: Relay, sid: Sid)
    requires sid in st.sessions && FourDistinct(st.sessions[sid])
    ensures ReadyAndDistinct(st, sid)
  {
  }

  lemma ExactBasics(st: Relay, sid: Sid, role: Role, port: PortType, addr: Address)
    requires TableExact(st, sid) && AlreadyPeer(st.sessions[sid], role, port, addr)
    ensures role != Spectator && sid in st.sessions && st.sessions[sid].IsReady()
  {
  }

  lemma AgainUnchanged(st: Relay, sid: Sid, role: Role, port: PortType, addr: Address, now: Time)
    requires Inv(st) && TableExact(st, sid) && AlreadyPeer(st.sessions[sid], role, port, addr)
    requires NothingOverwritten(st, sid, addr)
    ensures var after := RegisterPeer(st, sid, role, port, addr, now);
            && TableUnchanged(st.mappings, after.mappings, st.sessions[sid])
            && sid in after.sessions && after.sessions == st.sessions[sid := after.sessions[sid]]
            && FourDistinct(after.sessions[sid])
  {
    SamePeerAgain(st, sid, role, port, addr, now);
    RegisteredShape(st, sid, role, port, addr, now);
    var st2 := RecordPeer(st, sid, role, port, addr, now);
    var s, s' := st.sessions[sid], st2.sessions[sid];
    var after := RegisterPeer(st, sid, role, port, addr, now);
    assert FourDistinct(s) && FourDistinct(s');
    hide *;
    UpdatedAgain(st2, sid, now);
    UnchangedFor(st.mappings, after.mappings, s, s');
  }

  lemma UnchangedFor(before: map<Address, Mapping>, after: map<Address, Mapping>, s: Session, s': Session)
    requires SamePeers(s, s') && TableUnchanged(before, after, s')
    ensures TableUnchanged(before, after, s)
  {
    TwoAddresses(s.streamer);
    TwoAddresses(s'.streamer);
    assert Audience(s, Video) == Audience(s', Video) && Audience(s, Control) == Audience(s', Control);
  }

  /** The session's peers keep their addresses, and no session gets overwritten. */
  lemma SamePeerAgain(st: Relay, sid: Sid, role: Role, port: PortType, addr: Address, now: Time)
    requires Inv(st) && TableExact(st, sid) && AlreadyPeer(st.sessions[sid], role, port, addr)
               && NothingOverwritten(st, sid, addr)
    ensures var s, st2 := st.sessions[sid], RecordPeer(st, sid, role, port, addr, now);
            && st2.sessions == st.sessions[sid := st2.sessions[sid]] && st2.mappings == st.mappings
            && var s' := st2.sessions[sid];
            && SamePeers(s, s') && TargetsExact(st.mappings, s')
            && (forall a | a in s'.addresses && a in st.mappings :: a in PeerAddresses(s'))
            && UpdateMappings(st2, sid, now).sessions == st2.sessions
  {
    hide NewMappings, KeepTimestamps, Inv, UpdateMappings, Audience;
    var s, st2 := st.sessions[sid], RecordPeer(st, sid, role, port, addr, now);
    var s' := st2.sessions[sid];
    assert s'.addresses == s.addresses + {addr} && addr in PeerAddresses(s') && s'.spectators == s.spectators;
    SameAudience(s, s');
    assert Overwritten(st2, sid) == {};
    NobodyOverwritten(st2, sid, now);
  }

  lemma SameAudience(s: Session, s': Session)
    requires s'.spectators == s.spectators
    ensures Audience(s, Video) == Audience(s', Video) && Audience(s, Control) == Audience(s', Control)
  {
  }

  lemma NobodyOverwritten(st: Relay, sid: Sid, now: Time)
    requires sid in st.sessions && st.sessions[sid].IsReady() && Overwritten(st, sid) == {}
    ensures UpdateMappings(st, sid, now).sessions == st.sessions
  {
    hide NewMappings, KeepTimestamps, Without;
  }

  /**
   * In any run, a peer of a session whose table is exact may announce itself again and again:
   * if its address neither spectates nor belongs to another session, no target changes.
   */
  lemma RepeatedAnnouncement(events: seq<Event>, ev: Event, target: Target)
    requires TableExact(Run(events), target.sid)
    requires ev.Announced? && Accepts(ev.role, ev.port, ev.sid, ev.store) == Some(target)
    requires AlreadyPeer(Run(events).sessions[target.sid], target.role, target.port, ev.addr)
    requires NothingOverwritten(Run(events), target.sid, ev.addr)
    requires forall t | t in Run(events).sessions :: !Spectates(Run(events).sessions[t], ev.addr)
    ensures TableUnchanged(Run(events).mappings, Run(events + [ev]).mappings, Run(events).sessions[target.sid])
    ensures TableExact(Run(events + [ev]), target.sid)
  {
    hide *;
    var st := Run(events);
    AlwaysGrouped(events);
    OneMoreEvent(events, ev);
    PeerIsNotSpectator(st, target, ev.addr);
    AnnouncedByPeer(st, ev, target);
    AnnouncingAgainIsIdempotent(st, target.sid, target.role, target.port, ev.addr, ev.now);
  }

  lemma OneMoreEvent(events: seq<Event>, ev: Event)
    ensures Run(events + [ev]) == Step(Run(events), ev)
  {
    hide Step;
    assert (events + [ev])[..|events|] == events;
  }

  lemma PeerIsNotSpectator(st: Relay, target: Target, addr: Address)
    requires TableExact(st, target.sid) && AlreadyPeer(st.sessions[target.sid], target.role, target.port, addr)
    ensures target.role != Spectator
  {
  }

  lemma AnnouncedByPeer(st: Relay, ev: Event, target: Target)
    requires ev.Announced? && Accepts(ev.role, ev.port, ev.sid, ev.store) == Some(target) && target.role != Spectator
    requires forall t | t in st.sessions :: !Spectates(st.sessions[t], ev.addr)
    ensures Step(st, ev) == RegisterPeer(st, target.sid, target.role, target.port, ev.addr, ev.now)
  {
    hide RegisterPeer, Spectates;
    assert FirstSpectated(st.sessions, st.order, ev.addr) == None;
  }

  // ---------------------------------------------------------------- a spectator joins

  /** The audience when only entry `i` changes, and changes its address for `p` only by giving up one in `gone`. */
  lemma AudienceChange(s: Session, s': Session, i: nat, gone: set<Address>, p: PortType)
    requires i < |s'.spectators| && |s.spectators| <= |s'.spectators| <= |s.spectators| + 1
    requires forall k | 0 <= k < |s'.spectators| && k != i :: k < |s.spectators| && s'.spectators[k] == s.spectators[k]
    requires forall k | 0 <= k < |s.spectators| && k != i && s.spectators[k].IsComplete() ::
               s.spectators[k].PortAddr(p) !in gone
    requires i < |s.spectators| && s.spectators[i].IsComplete() ==> s'.spectators[i].IsComplete()
    requires i < |s.spectators| && s.spectators[i].IsComplete() ==>
               s.spectators[i].PortAddr(p) in gone || s.spectators[i].PortAddr(p) == s'.spectators[i].PortAddr(p)
    ensures Audience(s', p) == (Audience(s, p) - gone) + (if s'.spectators[i].IsComplete()
              then {s'.spectators[i].PortAddr(p)} else {})
  {
    var own := if s'.spectators[i].IsComplete() then {s'.spectators[i].PortAddr(p)} else {};
    forall a | a in Audience(s', p) ensures a in (Audience(s, p) - gone) + own {
      var k :| 0 <= k < |s'.spectators| && s'.spectators[k].IsComplete() && s'.spectators[k].PortAddr(p) == a;
      if k != i {
        assert s.spectators[k].IsComplete() && s.spectators[k].PortAddr(p) == a;
      }
    }
    forall a | a in Audience(s, p) && a !in gone ensures a in Audience(s', p) {
      var k :| 0 <= k < |s.spectators| && s.spectators[k].IsComplete() && s.spectators[k].PortAddr(p) == a;
      assert k == i || s'.spectators[k] == s.spectators[k];
      assert s'.spectators[k].IsComplete() && s'.spectators[k].PortAddr(p) == a;
    }
  }

  /** What a spectator's announcement does to the audience of one port. */
  lemma AudienceAfterJoining(s: Session, port: PortType, peer: PeerEntry, uid: nat, p: PortType)
    requires Grouped(s.spectators)
    ensures var (s', replaced) := RegisterSpectatorPort(s, port, peer, uid);
            var gone := if replaced.Some? then {replaced.value} else {};
            Audience(s', p) == (Audience(s, p) - gone) + FoundTargets(s', p, {peer.addr})
  {
    hide Grouped, SpectatorSlot, FoundTargets, Audience, UsesIp;
    var (s', replaced) := RegisterSpectatorPort(s, port, peer, uid);
    var gone := if replaced.Some? then {replaced.value} else {};
    var (i, was) := SpectatorSlot(s, peer.addr.ip, uid);
    RegisterKeepsGrouped(s, port, peer, uid);
    assert s'.spectators[i].ports == was.ports[port := peer];
    assert peer.addr in s'.spectators[i].Addresses() by {
      assert s'.spectators[i].ports[port].addr == peer.addr;
    }
    OneIsFound(s', p, i, peer.addr);
    if replaced.Some? {
      OthersDoNotUse(s, i, port, p);
    }
    AudienceChange(s, s', i, gone, p);
  }

  lemma OthersDoNotUse(s: Session, i: nat, port: PortType, p: PortType)
    requires Grouped(s.spectators) && i < |s.spectators| && port in s.spectators[i].ports
    ensures forall k | 0 <= k < |s.spectators| && k != i && s.spectators[k].IsComplete() ::
              s.spectators[k].PortAddr(p) != s.spectators[i].ports[port].addr
  {
    var a := s.spectators[i].ports[port].addr;
    assert a in s.spectators[i].Addresses();
    LookupIsUnambiguous(s.spectators, i, a);
    forall k | 0 <= k < |s.spectators| && k != i && s.spectators[k].IsComplete()
        ensures s.spectators[k].PortAddr(p) != a {
      assert s.spectators[k].PortAddr(p) in s.spectators[k].Addresses();
    }
  }

  /** No address of a spectator is an address of the session's viewer. */
  ghost predicate ViewerDoesNotSpectate(s: Session)
    requires s.IsReady()
  {
    forall i, p | 0 <= i < |s.spectators| && p in s.spectators[i].ports ::
      s.spectators[i].ports[p].addr != s.viewer[Video].addr && s.spectators[i].ports[p].addr != s.viewer[Control].addr
  }

  /** Taking `gone` off the streamer's targets and attaching `addr`'s entry leads to the next audience. */
  lemma MovesToNewAudience(mappings: map<Address, Mapping>, s: Session, s': Session, gone: set<Address>, addr: Address,
      now: Time)
    requires SamePorts(s, s') && FourDistinct(s) && TargetsExact(mappings, s)
    requires s.viewer[Video].addr !in gone && s.viewer[Control].addr !in gone
    requires Audience(s', Video) == (Audience(s, Video) - gone) + FoundTargets(s', Video, {addr})
    requires Audience(s', Control) == (Audience(s, Control) - gone) + FoundTargets(s', Control, {addr})
    ensures TargetsExact(AttachSpectators(RemoveTargets(mappings, s.streamer, gone), s', {addr}, now), s')
  {
    hide Audience, FoundTargets, RemoveTargets, AttachSpectators, AddrsOf;
    var removed := RemoveTargets(mappings, s.streamer, gone);
    RemovedFromStreamer(mappings, s, gone);
    AttachedToStreamer(removed, s', addr, now);
  }

  /** The streamer's targets lose `gone`; the viewer's do not change. */
  lemma RemovedFromStreamer(mappings: map<Address, Mapping>, s: Session, gone: set<Address>)
    requires FourDistinct(s) && TargetsExact(mappings, s)
    requires s.viewer[Video].addr !in gone && s.viewer[Control].addr !in gone
    ensures var removed := RemoveTargets(mappings, s.streamer, gone);
            && removed.Keys == mappings.Keys
            && SendsTo(removed, s.streamer[Video].addr, {s.viewer[Video].addr} + (Audience(s, Video) - gone))
            && SendsTo(removed, s.streamer[Control].addr, {s.viewer[Control].addr} + (Audience(s, Control) - gone))
            && SendsTo(removed, s.viewer[Video].addr, {s.streamer[Video].addr})
            && SendsTo(removed, s.viewer[Control].addr, {s.streamer[Control].addr})
  {
    hide Audience;
    TwoAddresses(s.streamer);
    hide AddrsOf;
    var removed := RemoveTargets(mappings, s.streamer, gone);
    assert removed[s.streamer[Video].addr].targets == {s.viewer[Video].addr} + (Audience(s, Video) - gone);
    assert removed[s.streamer[Control].addr].targets == {s.viewer[Control].addr} + (Audience(s, Control) - gone);
  }

  /** The streamer's targets gain what the lookup of `addr` finds; the viewer's do not change. */
  lemma AttachedToStreamer(mappings: map<Address, Mapping>, s: Session, addr: Address, now: Time)
    requires FourDistinct(s) && PeerAddresses(s) <= mappings.Keys
    ensures var after := AttachSpectators(mappings, s, {addr}, now);
            var sv, sc, vv, vc := s.streamer[Video].addr, s.streamer[Control].addr, s.viewer[Video].addr,
                s.viewer[Control].addr;
            && SendsTo(after, sv, mappings[sv].targets + FoundTargets(s, Video, {addr}))
            && SendsTo(after, sc, mappings[sc].targets + FoundTargets(s, Control, {addr}))
            && SendsTo(after, vv, mappings[vv].targets)
            && SendsTo(after, vc, mappings[vc].targets)
  {
    hide FoundTargets;
    var after := AttachSpectators(mappings, s, {addr}, now);
    var sv, sc := s.streamer[Video].addr, s.streamer[Control].addr;
    assert after[sv].targets == mappings[sv].targets + FoundTargets(s, Video, {addr});
    assert after[sc].targets == mappings[sc].targets + FoundTargets(s, Control, {addr});
  }

  ghost predicate SamePorts(s: Session, s': Session) {
    s'.streamer == s.streamer && s'.viewer == s.viewer
  }

  lemma TableAfterJoining(st: Relay, sid: Sid, port: PortType, addr: Address, now: Time)
    requires sid in st.sessions && st.sessions[sid].IsReady()
    ensures var (s', gone) := SpectatorJoins(st, sid, port, addr, now);
            var after := RegisterSpectator(st, sid, port, addr, now);
            && sid in after.sessions && after.sessions[sid] == s' && SamePorts(st.sessions[sid], s')
            && after.mappings == AttachSpectators(RemoveTargets(st.mappings, st.sessions[sid].streamer, gone), s',
                {addr}, now)
  {
    hide AttachSpectators, RemoveTargets, IndexEntry, SpectatorSlot;
  }

  /** Only an address of a spectator is given up. */
  lemma GivenUpBySpectator(s: Session, port: PortType, peer: PeerEntry, uid: nat)
    requires s.IsReady() && ViewerDoesNotSpectate(s)
    ensures RegisterSpectatorPort(s, port, peer, uid).1 != Some(s.viewer[Video].addr)
    ensures RegisterSpectatorPort(s, port, peer, uid).1 != Some(s.viewer[Control].addr)
  {
    hide SpectatorSlot;
  }

  lemma AudiencesAfterJoining(st: Relay, sid: Sid, port: PortType, addr: Address, now: Time)
    requires sid in st.sessions && st.sessions[sid].IsReady() && Grouped(st.sessions[sid].spectators)
    requires ViewerDoesNotSpectate(st.sessions[sid])
    ensures var s := st.sessions[sid];
            var (s', gone) := SpectatorJoins(st, sid, port, addr, now);
            && s.viewer[Video].addr !in gone && s.viewer[Control].addr !in gone
            && Audience(s', Video) == (Audience(s, Video) - gone) + FoundTargets(s', Video, {addr})
            && Audience(s', Control) == (Audience(s, Control) - gone) + FoundTargets(s', Control, {addr})
  {
    hide Audience, FoundTargets, Grouped, RegisterSpectatorPort, ViewerDoesNotSpectate;
    var s := st.sessions[sid];
    var peer := PeerEntry(addr, if addr in st.tcp then Tcp else Udp, now);
    GivenUpBySpectator(s, port, peer, st.nextUid);
    AudienceAfterJoining(s, port, peer, st.nextUid, Video);
    AudienceAfterJoining(s, port, peer, st.nextUid, Control);
  }

  /** A spectator's announcement in a ready session, in one equation for the session and one for the table. */
  lemma JoiningAReadySession(st: Relay, sid: Sid, port: PortType, addr: Address, now: Time)
      returns (s': Session, gone: set<Address>)
    requires sid in st.sessions && st.sessions[sid].IsReady() && Grouped(st.sessions[sid].spectators)
    requires ViewerDoesNotSpectate(st.sessions[sid])
    ensures var s, after := st.sessions[sid], RegisterSpectator(st, sid, port, addr, now);
            && sid in after.sessions && after.sessions[sid] == s' && SamePorts(s, s')
            && after.mappings == AttachSpectators(RemoveTargets(st.mappings, s.streamer, gone), s', {addr}, now)
            && s.viewer[Video].addr !in gone && s.viewer[Control].addr !in gone
            && Audience(s', Video) == (Audience(s, Video) - gone) + FoundTargets(s', Video, {addr})
            && Audience(s', Control) == (Audience(s, Control) - gone) + FoundTargets(s', Control, {addr})
  {
    hide Audience, FoundTargets, AttachSpectators, RemoveTargets, Grouped, SpectatorJoins, RegisterSpectator, SamePorts;
    TableAfterJoining(st, sid, port, addr, now);
    AudiencesAfterJoining(st, sid, port, addr, now);
    s', gone := SpectatorJoins(st, sid, port, addr, now).0, SpectatorJoins(st, sid, port, addr, now).1;
  }

  /** The targets stay exact when a spectator joins, changes a port, or completes its ports. */
  lemma JoiningKeepsTargetsExact(st: Relay, sid: Sid, port: PortType, addr: Address, now: Time)
    requires Inv(st) && sid in st.sessions && FourDistinct(st.sessions[sid])
    requires ViewerDoesNotSpectate(st.sessions[sid]) && TargetsExact(st.mappings, st.sessions[sid])
    ensures var after := RegisterSpectator(st, sid, port, addr, now);
            && sid in after.sessions && FourDistinct(after.sessions[sid])
            && TargetsExact(after.mappings, after.sessions[sid])
  {
    GroupedIn(st, sid);
    hide RegisterSpectator, TargetsExact, Audience, FoundTargets, AttachSpectators, RemoveTargets, Inv, Grouped,
        ViewerDoesNotSpectate;
    var s', gone := JoiningAReadySession(st, sid, port, addr, now);
    MovesToNewAudience(st.mappings, st.sessions[sid], s', gone, addr, now);
  }

  lemma GroupedIn(st: Relay, sid: Sid)
    requires Inv(st) && sid in st.sessions
    ensures Grouped(st.sessions[sid].spectators)
  {
  }
}
