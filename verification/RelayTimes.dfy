/**
 * The time stamps that decide what a cleanup pass removes: of mappings, of sessions and of
 * spectators. In every run each of them is the time of the last event that touched it.
 */
module RelayTimes {
  import opened RelayAdmission
  import opened RelaySpec
  import opened RelayTable
  import opened RelayTypes
  import opened SharedAddresses
  import opened SpectatorGrouping
  import opened SpectatorIndex

  datatype Stamped = MappingOf(a: Address) | SessionOf(sid: Sid) | EntryOf(sid: Sid, uid: nat)

  ghost predicate HasStamp(st: Relay, x: Stamped, t: Time) {
    match x
    case MappingOf(a) => a in st.mappings && st.mappings[a].timestamp == t
    case SessionOf(sid) => sid in st.sessions && st.sessions[sid].lastAnnouncementAt == t
    case EntryOf(sid, uid) =>
      exists i :: Live(st, sid, i) && At(st, sid, i).uid == uid && At(st, sid, i).lastAnnouncementAt == t
  }

  // ---------------------------------------------------------------- what touches what

  predicate AdmitsPeer(ev: Event, sid: Sid) {
    || Admits(ev, sid, Streamer, Video) || Admits(ev, sid, Streamer, Control)
    || Admits(ev, sid, Viewer, Video) || Admits(ev, sid, Viewer, Control)
  }

  predicate AdmitsSpectator(ev: Event, sid: Sid) {
    Admits(ev, sid, Spectator, Video) || Admits(ev, sid, Spectator, Control)
  }

  ghost predicate HasCompleteSpectator(s: Session) {
    exists i :: 0 <= i < |s.spectators| && s.spectators[i].IsComplete()
  }

  ghost predicate HasCompleteAt(s: Session, addr: Address) {
    exists i :: 0 <= i < |s.spectators| && s.spectators[i].IsComplete() && addr in s.spectators[i].Addresses()
  }

  /** A ready session's mapping is new, has new targets, or serves a complete spectator. */
  ghost predicate Rebuilt(before: map<Address, Mapping>, after: map<Address, Mapping>, s: Session, a: Address) {
    && s.IsReady() && a in PeerAddresses(s) && a in after
    && (a !in before || before[a].targets != after[a].targets || (a in AddrsOf(s.streamer) && HasCompleteSpectator(s)))
  }

  /** A ready session's streamer gets a complete spectator, or gets it again. */
  ghost predicate Joined(s: Session, addr: Address, a: Address) {
    s.IsReady() && a in AddrsOf(s.streamer) && HasCompleteAt(s, addr)
  }

  /** The spectator has been silent for more than half a minute, but one of its connections is alive. */
  ghost predicate KeptByConnection(st: Relay, e: Entry, now: Time, alive: set<nat>) {
    now - e.lastAnnouncementAt > 30.0 && exists a :: a in e.Addresses() && a in st.tcp && st.tcp[a] in alive
  }

  ghost predicate TouchesMapping(st: Relay, ev: Event, a: Address) {
    match ev
    case DataPacket(addr, _) => addr == a
    case Announced(_, _, _, _, _, _) =>
      var before, after := RemoveSpectator(st, ev.addr), Step(st, ev);
      || (exists sid ::
            AdmitsPeer(ev, sid) && sid in after.sessions
            && Rebuilt(before.mappings, after.mappings, after.sessions[sid], a))
      || (exists sid :: AdmitsSpectator(ev, sid) && sid in after.sessions && Joined(after.sessions[sid], ev.addr, a))
    case _ => false
  }

  ghost predicate TouchesSession(st: Relay, ev: Event, sid: Sid) {
    AdmitsPeer(ev, sid) || (AdmitsSpectator(ev, sid) && sid !in st.sessions)
  }

  ghost predicate TouchesEntry(st: Relay, ev: Event, sid: Sid, uid: nat) {
    match ev
    case Announced(_, _, _, _, _, _) =>
      && AdmitsSpectator(ev, sid)
      && exists i ::
           Live(Step(st, ev), sid, i) && At(Step(st, ev), sid, i).uid == uid
           && ev.addr in At(Step(st, ev), sid, i).Addresses()
    case StrayPacket(addr, _) => addr in st.index && st.index[addr] == uid
    case CleanupPass(now, _, alive) =>
      exists i :: Live(st, sid, i) && At(st, sid, i).uid == uid && KeptByConnection(st, At(st, sid, i), now, alive)
    case _ => false
  }

  /**
   * A packet touches the mapping of its sender; an admitted announcement its session, if it comes
   * from a streamer or viewer or the session is new, its spectator, and the mappings that change
   * or serve spectators; a stray packet the spectator of the index; and a pass the spectators
   * that only a connection keeps.
   */
  ghost predicate Touches(st: Relay, ev: Event, x: Stamped) {
    match x
    case MappingOf(a) => TouchesMapping(st, ev, a)
    case SessionOf(sid) => TouchesSession(st, ev, sid)
    case EntryOf(sid, uid) => TouchesEntry(st, ev, sid, uid)
  }

  function TimeOf(ev: Event): Option<Time> {
    if ev.TcpConnected? then None else Some(ev.now)
  }

  // ---------------------------------------------------------------- mappings

  lemma ListenersIff(s: Session, key: Address)
    requires Full(s.streamer)
    ensures Listeners(s, key) != {} <==> key in AddrsOf(s.streamer) && HasCompleteSpectator(s)
  {
    forall p ensures Audience(s, p) != {} <==> HasCompleteSpectator(s) {
      if i :| 0 <= i < |s.spectators| && s.spectators[i].IsComplete() {
        assert s.spectators[i].PortAddr(p) in Audience(s, p);
      }
    }
    assert AddrsOf(s.streamer) == {s.streamer[Video].addr, s.streamer[Control].addr} by {
      assert forall p | p in s.streamer :: p == Video || p == Control;
    }
  }

  /** Attaching gives exactly the keys that get listeners the new time. */
  lemma AttachStamps(mappings: map<Address, Mapping>, s: Session, addrs: set<Address>, now: Time, key: Address)
    requires Full(s.streamer)
    ensures var after := AttachSpectators(mappings, s, addrs, now);
            && (key in after <==> key in mappings || AddedTargets(s, key, addrs) != {})
            && (AddedTargets(s, key, addrs) != {} ==> after[key].timestamp == now)
            && (AddedTargets(s, key, addrs) == {} && key in mappings ==> after[key] == mappings[key])
  {
    hide FoundTargets;
  }

  lemma UpdateStamps(st: Relay, sid: Sid, now: Time, a: Address)
    requires sid in st.sessions && st.sessions[sid].IsReady()
    requires a in UpdateMappings(st, sid, now).mappings
    ensures var s, after := st.sessions[sid], UpdateMappings(st, sid, now).mappings;
            if a !in PeerAddresses(s) then a in st.mappings && after[a] == st.mappings[a]
            else if a in st.mappings && st.mappings[a].targets == after[a].targets then after[a] == st.mappings[a]
            else after[a].timestamp == now
  {
    hide Without, Overwritten;
    var s := st.sessions[sid];
    assert NewMappings(s, now).Keys == PeerAddresses(s);
    assert a in NewMappings(s, now) ==> NewMappings(s, now)[a].timestamp == now;
  }

  /** The mappings after a streamer or viewer registered. */
  lemma StampAfterPeer(st: Relay, sid: Sid, role: Role, port: PortType, addr: Address, now: Time, a: Address)
    requires Inv(st) && role != Spectator && a in RegisterPeer(st, sid, role, port, addr, now).mappings
    ensures var after := RegisterPeer(st, sid, role, port, addr, now);
            && sid in after.sessions
            && (Rebuilt(st.mappings, after.mappings, after.sessions[sid], a) ==> after.mappings[a].timestamp == now)
            && (!Rebuilt(st.mappings, after.mappings, after.sessions[sid], a) ==>
                  a in st.mappings && after.mappings[a].timestamp == st.mappings[a].timestamp)
  {
    RegisteredShape(st, sid, role, port, addr, now);
    RecordingKeepsTable(st, sid, role, port, addr, now);
    hide RegisterPeer, RecordPeer, UpdateMappings, AttachSpectators, CompleteAddresses, Grouped, HasCompleteSpectator,
        Listeners, AddedTargets, Inv;
    var st2, after := RecordPeer(st, sid, role, port, addr, now), RegisterPeer(st, sid, role, port, addr, now);
    var s := st2.sessions[sid];
    if s.IsReady() {
      var st3 := UpdateMappings(st2, sid, now);
      AttachStamps(st3.mappings, s, CompleteAddresses(s), now, a);
      AddedAre(s, a);
      ListenersIff(s, a);
      if a in st3.mappings {
        UpdateStamps(st2, sid, now, a);
        AttachAt(st3.mappings, s, now, a);
      } else {
        ConnectedKeys(st2, sid, now);
      }
    }
  }

  lemma RecordingKeepsTable(st: Relay, sid: Sid, role: Role, port: PortType, addr: Address, now: Time)
    requires role != Spectator
    ensures RecordPeer(st, sid, role, port, addr, now).mappings == st.mappings
    ensures var st2 := RecordPeer(st, sid, role, port, addr, now);
            && sid in st2.sessions
            && (!st2.sessions[sid].IsReady() ==> RegisterPeer(st, sid, role, port, addr, now) == st2)
  {
    hide UpdateMappings, AttachSpectators, CompleteAddresses;
  }

  lemma AddedAre(s: Session, key: Address)
    requires Full(s.streamer) && Grouped(s.spectators)
    ensures AddedTargets(s, key, CompleteAddresses(s)) == Listeners(s, key)
  {
    AllCompleteAreFound(s, Video);
    AllCompleteAreFound(s, Control);
    hide FoundTargets, CompleteAddresses, Audience, Grouped;
  }

  lemma ConnectedKeys(st: Relay, sid: Sid, now: Time)
    requires sid in st.sessions && st.sessions[sid].IsReady()
    ensures PeerAddresses(st.sessions[sid]) <= UpdateMappings(st, sid, now).mappings.Keys
    ensures AddrsOf(st.sessions[sid].streamer) <= PeerAddresses(st.sessions[sid])
  {
    hide Without, Overwritten;
    var s := st.sessions[sid];
    assert NewMappings(s, now).Keys == PeerAddresses(s);
    assert forall p | p in s.streamer :: p == Video || p == Control;
  }

  /** The mappings after a spectator joined: one that waits for its session changes no time and no key. */
  lemma StampAfterSpectator(st: Relay, sid: Sid, port: PortType, addr: Address, now: Time, a: Address)
    requires Inv(st)
    ensures var after := RegisterSpectator(st, sid, port, addr, now);
            && sid in after.sessions
            && (a in after.mappings <==> a in st.mappings || Joined(after.sessions[sid], addr, a))
            && (Joined(after.sessions[sid], addr, a) ==> after.mappings[a].timestamp == now)
            && (a in st.mappings && !Joined(after.sessions[sid], addr, a) ==>
                  && after.mappings[a].timestamp == st.mappings[a].timestamp
                  && after.mappings[a].targets <= st.mappings[a].targets)
  {
    var s, mappings := JoinShape(st, sid, port, addr, now);
    hide RegisterSpectator, AttachSpectators, AddedTargets, HasCompleteAt, Inv, Grouped;
    if s.IsReady() {
      AttachStamps(mappings, s, {addr}, now, a);
      AddedByOne(s, a, addr);
    }
  }

  lemma JoinShape(st: Relay, sid: Sid, port: PortType, addr: Address, now: Time)
    returns (s: Session, mappings: map<Address, Mapping>)
    requires Inv(st)
    ensures var after := RegisterSpectator(st, sid, port, addr, now);
            && sid in after.sessions && s == after.sessions[sid] && Grouped(s.spectators)
            && (exists i :: 0 <= i < |s.spectators| && addr in s.spectators[i].Addresses())
            && after.mappings == if s.IsReady() then AttachSpectators(mappings, s, {addr}, now) else mappings
    ensures mappings.Keys == st.mappings.Keys
    ensures forall a | a in mappings ::
              mappings[a].timestamp == st.mappings[a].timestamp && mappings[a].targets <= st.mappings[a].targets
  {
    var gone := SpectatorJoins(st, sid, port, addr, now).1;
    s := SpectatorJoins(st, sid, port, addr, now).0;
    mappings := RemoveTargets(st.mappings, s.streamer, gone);
    RemovingShrinks(st.mappings, s.streamer, gone);
    JoinedGrouped(st, sid, port, addr, now);
    SpectatorOnRecord(st, sid, port, addr, now);
    JoinedTable(st, sid, port, addr, now);
    hide RegisterSpectator, SpectatorJoins, AttachSpectators, RemoveTargets, HasAt, Grouped, Inv;
    var i :| 0 <= i < |s.spectators| && HasAt(s.spectators[i].ports, port, addr);
    AtPort(s.spectators[i], port, addr);
  }

  lemma JoinedTable(st: Relay, sid: Sid, port: PortType, addr: Address, now: Time)
    ensures var (s, gone) := SpectatorJoins(st, sid, port, addr, now);
            var after, mappings := RegisterSpectator(st, sid, port, addr, now), RemoveTargets(st.mappings, s.streamer,
                gone);
            && sid in after.sessions && after.sessions[sid] == s
            && after.mappings == if s.IsReady() then AttachSpectators(mappings, s, {addr}, now) else mappings
  {
    hide AttachSpectators, SpectatorJoins, RemoveTargets, IndexEntry;
  }

  lemma JoinedGrouped(st: Relay, sid: Sid, port: PortType, addr: Address, now: Time)
    requires Inv(st)
    ensures Grouped(SpectatorJoins(st, sid, port, addr, now).0.spectators)
  {
    hide RegisterSpectatorPort, Grouped;
    var s := SetDefault(st, sid, now).sessions[sid];
    SetDefaultKeeps(st, sid, now);
    RegisterKeepsGrouped(s, port, PeerEntry(addr, if addr in st.tcp then Tcp else Udp, now), st.nextUid);
  }

  lemma RemovingShrinks(mappings: map<Address, Mapping>, streamer: Ports, gone: set<Address>)
    ensures var after := RemoveTargets(mappings, streamer, gone);
            && after.Keys == mappings.Keys
            && forall a | a in mappings ::
                 after[a].timestamp == mappings[a].timestamp && after[a].targets <= mappings[a].targets
  {
  }

  lemma AtPort(e: Entry, port: PortType, addr: Address)
    requires HasAt(e.ports, port, addr)
    ensures addr in e.Addresses()
  {
  }

  lemma AddedByOne(s: Session, key: Address, addr: Address)
    requires Full(s.streamer) && Grouped(s.spectators)
    requires exists i :: 0 <= i < |s.spectators| && addr in s.spectators[i].Addresses()
    ensures AddedTargets(s, key, {addr}) != {} <==> key in AddrsOf(s.streamer) && HasCompleteAt(s, addr)
  {
    var i :| 0 <= i < |s.spectators| && addr in s.spectators[i].Addresses();
    OneIsFound(s, Video, i, addr);
    OneIsFound(s, Control, i, addr);
    LookupIsUnambiguous(s.spectators, i, addr);
    assert HasCompleteAt(s, addr) <==> s.spectators[i].IsComplete();
    assert AddrsOf(s.streamer) == {s.streamer[Video].addr, s.streamer[Control].addr} by {
      assert forall p | p in s.streamer :: p == Video || p == Control;
    }
    hide FoundTargets, Grouped, FindByAddress;
  }

  // ---------------------------------------------------------------- how an announcement is handled

  datatype Handling =
    | AsPeer(sid: Sid, role: Role, port: PortType)
    | AsSpectator(sid: Sid, port: PortType)
    | Refused

  /** An announcement registers a peer once its address spectates no more, or a spectator, or nobody. */
  lemma HowAnnounced(st: Relay, ev: Event) returns (h: Handling)
    requires ev.Announced?
    ensures match h
            case AsPeer(sid, role, port) =>
              && role != Spectator && AdmitsPeer(ev, sid)
              && Step(st, ev) == RegisterPeer(RemoveSpectator(st, ev.addr), sid, role, port, ev.addr, ev.now)
            case AsSpectator(sid, port) =>
              AdmitsSpectator(ev, sid) && Step(st, ev) == RegisterSpectator(st, sid, port, ev.addr, ev.now)
            case Refused => Step(st, ev) in {st, RemoveSpectator(st, ev.addr)}
    ensures forall sid :: AdmitsPeer(ev, sid) <==> h.AsPeer? && h.sid == sid
    ensures forall sid :: AdmitsSpectator(ev, sid) <==> h.AsSpectator? && h.sid == sid
  {
    hide RegisterPeer, RegisterSpectator, RemoveSpectator;
    h := match Accepts(ev.role, ev.port, ev.sid, ev.store)
         case None => Refused
         case Some(Target(sid, Spectator, port)) => AsSpectator(sid, port)
         case Some(Target(sid, role, port)) => AsPeer(sid, role, port);
  }

  lemma TouchesMeans(st: Relay, ev: Event, h: Handling, a: Address)
    requires ev.Announced?
    requires forall sid :: AdmitsPeer(ev, sid) <==> h.AsPeer? && h.sid == sid
    requires forall sid :: AdmitsSpectator(ev, sid) <==> h.AsSpectator? && h.sid == sid
    ensures var before, after := RemoveSpectator(st, ev.addr), Step(st, ev);
            TouchesMapping(st, ev, a) <==>
              match h
              case AsPeer(sid, _, _) =>
                sid in after.sessions && Rebuilt(before.mappings, after.mappings, after.sessions[sid], a)
              case AsSpectator(sid, _) => sid in after.sessions && Joined(after.sessions[sid], ev.addr, a)
              case Refused => false
  {
    hide Step, RemoveSpectator, Rebuilt, Joined, AdmitsPeer, AdmitsSpectator;
  }

  lemma MappingsAfterAnnouncement(st: Relay, ev: Event, a: Address)
    requires Inv(st) && ev.Announced? && a in Step(st, ev).mappings
    ensures TouchesMapping(st, ev, a) ==> Step(st, ev).mappings[a].timestamp == ev.now
    ensures !TouchesMapping(st, ev, a) ==>
              a in st.mappings && Step(st, ev).mappings[a].timestamp == st.mappings[a].timestamp
  {
    RemovingIsNotNew(st, ev.addr);
    RemoveSpectatorKeeps(st, ev.addr);
    var h := HowAnnounced(st, ev);
    TouchesMeans(st, ev, h, a);
    hide *;
    match h
    case AsPeer(sid, role, port) =>
      StampAfterPeer(RemoveSpectator(st, ev.addr), sid, role, port, ev.addr, ev.now, a);
      SameTable(st, RemoveSpectator(st, ev.addr));
    case AsSpectator(sid, port) => StampAfterSpectator(st, sid, port, ev.addr, ev.now, a);
    case Refused => SameTable(st, RemoveSpectator(st, ev.addr));
  }

  lemma SameTable(st: Relay, after: Relay)
    requires NothingNew(st, after)
    ensures after.mappings.Keys == st.mappings.Keys
    ensures forall a | a in after.mappings :: after.mappings[a].timestamp == st.mappings[a].timestamp
  {
  }

  // ---------------------------------------------------------------- sessions

  lemma SessionsAfterPeer(st: Relay, sid: Sid, role: Role, port: PortType, addr: Address, now: Time)
    requires role != Spectator
    ensures var after := RegisterPeer(st, sid, role, port, addr, now);
            forall s | s in after.sessions ::
              if s == sid then after.sessions[s].lastAnnouncementAt == now
              else s in st.sessions && after.sessions[s] == st.sessions[s]
  {
    RecordedTimes(st, sid, role, port, addr, now);
    hide RecordPeer, AttachSpectators, KeepTimestamps, NewMappings, Overwritten, Without, CompleteAddresses;
  }

  lemma RecordedTimes(st: Relay, sid: Sid, role: Role, port: PortType, addr: Address, now: Time)
    requires role != Spectator
    ensures var after := RecordPeer(st, sid, role, port, addr, now);
            && sid in after.sessions
            && forall s | s in after.sessions ::
                 if s == sid then after.sessions[s].lastAnnouncementAt == now
                 else s in st.sessions && after.sessions[s] == st.sessions[s]
  {
  }

  lemma SessionsAfterSpectator(st: Relay, sid: Sid, port: PortType, addr: Address, now: Time)
    ensures var after := RegisterSpectator(st, sid, port, addr, now);
            forall s | s in after.sessions ::
              if s in st.sessions then
                && after.sessions[s].lastAnnouncementAt == st.sessions[s].lastAnnouncementAt
                && (s != sid ==> after.sessions[s] == st.sessions[s])
              else s == sid && after.sessions[s].lastAnnouncementAt == now
  {
    hide AttachSpectators, RemoveTargets, SpectatorSlot, IndexEntry;
  }

  lemma SessionsAfterRemoval(st: Relay, addr: Address)
    ensures var after := RemoveSpectator(st, addr);
            && after.sessions.Keys == st.sessions.Keys
            && forall s | s in after.sessions ::
                 after.sessions[s].lastAnnouncementAt == st.sessions[s].lastAnnouncementAt
  {
    hide RemoveTargets;
  }

  lemma SessionsAfterAnnouncement(st: Relay, ev: Event, sid: Sid)
    requires ev.Announced? && sid in Step(st, ev).sessions
    ensures TouchesSession(st, ev, sid) ==> Step(st, ev).sessions[sid].lastAnnouncementAt == ev.now
    ensures !TouchesSession(st, ev, sid) ==>
              sid in st.sessions
              && Step(st, ev).sessions[sid].lastAnnouncementAt == st.sessions[sid].lastAnnouncementAt
  {
    SessionsAfterRemoval(st, ev.addr);
    var h := HowAnnounced(st, ev);
    hide Step, RegisterPeer, RegisterSpectator, RemoveSpectator, AdmitsPeer, AdmitsSpectator;
    match h
    case AsPeer(target, role, port) =>
      SessionsAfterPeer(RemoveSpectator(st, ev.addr), target, role, port, ev.addr, ev.now);
    case AsSpectator(target, port) => SessionsAfterSpectator(st, target, port, ev.addr, ev.now);
    case Refused =>
  }

  // ---------------------------------------------------------------- spectators

  /** The entry was there before, with the same time. */
  ghost predicate SameTime(st: Relay, sid: Sid, e: Entry) {
    exists i :: Live(st, sid, i) && At(st, sid, i).uid == e.uid
        && At(st, sid, i).lastAnnouncementAt == e.lastAnnouncementAt
  }

  lemma EntriesAfterRemoval(st: Relay, addr: Address, sid: Sid, i: nat)
    requires Live(RemoveSpectator(st, addr), sid, i)
    ensures SameTime(st, sid, At(RemoveSpectator(st, addr), sid, i))
  {
    RemovingIsNotNew(st, addr);
    var e := At(RemoveSpectator(st, addr), sid, i);
    hide RemoveSpectator;
    var j :| 0 <= j < |st.sessions[sid].spectators| && st.sessions[sid].spectators[j] == e;
    assert Live(st, sid, j) && At(st, sid, j) == e;
  }

  lemma EntriesAfterPeer(st: Relay, sid: Sid, role: Role, port: PortType, addr: Address, now: Time, s: Sid, i: nat)
    requires role != Spectator && Live(RegisterPeer(st, sid, role, port, addr, now), s, i)
    ensures Live(st, s, i) && At(RegisterPeer(st, sid, role, port, addr, now), s, i) == At(st, s, i)
  {
    SpectatorsUntouched(st, sid, role, port, addr, now);
    hide RegisterPeer;
  }

  /** The announced entry is the one that uses the address; all others stay as they were. */
  lemma EntriesAfterSpectator(st: Relay, sid: Sid, port: PortType, addr: Address, now: Time, s: Sid, i: nat)
    requires Inv(st) && Live(RegisterSpectator(st, sid, port, addr, now), s, i)
    ensures var e := At(RegisterSpectator(st, sid, port, addr, now), s, i);
            if s == sid && addr in e.Addresses() then e.lastAnnouncementAt == now
            else Live(st, s, i) && At(st, s, i) == e
  {
    var peer := PeerEntry(addr, if addr in st.tcp then Tcp else Udp, now);
    var was := SetDefault(st, sid, now).sessions[sid];
    SetDefaultKeeps(st, sid, now);
    SessionsAfterSpectator(st, sid, port, addr, now);
    JoinedTable(st, sid, port, addr, now);
    GroupedHere(SetDefault(st, sid, now), sid);
    JoinedEntries(was, port, peer, st.nextUid);
    assert SpectatorJoins(st, sid, port, addr, now).0 == RegisterSpectatorPort(was, port, peer, st.nextUid).0 by {
      hide RegisterSpectatorPort;
    }
    hide RegisterSpectator, RegisterSpectatorPort, SpectatorJoins, Grouped, Inv, AttachSpectators, RemoveTargets;
  }

  lemma GroupedHere(st: Relay, sid: Sid)
    requires Inv(st) && sid in st.sessions
    ensures Grouped(st.sessions[sid].spectators)
  {
  }

  lemma JoinedEntries(s: Session, port: PortType, peer: PeerEntry, uid: nat)
    requires Grouped(s.spectators)
    ensures var after := RegisterSpectatorPort(s, port, peer, uid).0.spectators;
            forall i | 0 <= i < |after| ::
              if peer.addr in after[i].Addresses() then after[i].lastAnnouncementAt == peer.ts
              else i < |s.spectators| && after[i] == s.spectators[i]
  {
    var (k, was) := SpectatorSlot(s, peer.addr.ip, uid);
    var after := RegisterSpectatorPort(s, port, peer, uid).0.spectators;
    RegisterKeepsGrouped(s, port, peer, uid);
    hide SpectatorSlot;
    assert HasAt(after[k].ports, port, peer.addr);
    AtPort(after[k], port, peer.addr);
    forall i | 0 <= i < |after| && i != k ensures peer.addr !in after[i].Addresses() {
    }
  }

  lemma EntriesAfterAnnouncement(st: Relay, ev: Event, sid: Sid, i: nat)
    requires Inv(st) && DifferentObjects(st) && ev.Announced? && Live(Step(st, ev), sid, i)
    ensures var e := At(Step(st, ev), sid, i);
            if TouchesEntry(st, ev, sid, e.uid) then e.lastAnnouncementAt == ev.now else SameTime(st, sid, e)
  {
    var h := HowAnnounced(st, ev);
    StepKeepsObjects(st, ev);
    OneEntryOnly(Step(st, ev), sid, i, ev.addr);
    hide Step, RegisterPeer, RegisterSpectator, RemoveSpectator, AdmitsPeer, AdmitsSpectator, Inv, DifferentObjects;
    match h
    case AsPeer(target, role, port) =>
      EntriesAfterPeer(RemoveSpectator(st, ev.addr), target, role, port, ev.addr, ev.now, sid, i);
      EntriesAfterRemoval(st, ev.addr, sid, i);
    case AsSpectator(target, port) => EntriesAfterSpectator(st, target, port, ev.addr, ev.now, sid, i);
    case Refused =>
      if Step(st, ev) == RemoveSpectator(st, ev.addr) {
        EntriesAfterRemoval(st, ev.addr, sid, i);
      }
  }

  /** No other entry of the session has the same identity. */
  lemma OneEntryOnly(st: Relay, sid: Sid, i: nat, addr: Address)
    requires DifferentObjects(st) && Live(st, sid, i)
    ensures (exists j :: Live(st, sid, j) && At(st, sid, j).uid == At(st, sid, i).uid
                && addr in At(st, sid, j).Addresses()) <==> addr in At(st, sid, i).Addresses()
  {
  }

  lemma EntriesAfterHeartbeat(st: Relay, addr: Address, now: Time, sid: Sid, i: nat)
    requires Live(Heartbeat(st, addr, now), sid, i)
    ensures var e := At(Heartbeat(st, addr, now), sid, i);
            if addr in st.index && st.index[addr] == e.uid then e.lastAnnouncementAt == now else SameTime(st, sid, e)
  {
    assert Live(st, sid, i);
  }

  lemma {:induction false} KeptEntry(st: Relay, spectators: seq<Entry>, now: Time, alive: set<nat>, k: nat)
    returns (j: nat)
    requires k < |KeepActive(st, spectators, now, alive)|
    ensures j < |spectators|
    ensures var e, was := KeepActive(st, spectators, now, alive)[k], spectators[j];
            if now - was.lastAnnouncementAt > 30.0 then
              HasActiveTcp(st, was, alive) && e == was.(lastAnnouncementAt := now)
            else e == was
  {
    if IsInactive(st, spectators[0], now, alive) {
      var i := KeptEntry(st, spectators[1..], now, alive, k);
      j := i + 1;
    } else if k == 0 {
      j := 0;
    } else {
      var i := KeptEntry(st, spectators[1..], now, alive, k - 1);
      j := i + 1;
    }
  }

  lemma EntriesAfterCleanup(st: Relay, now: Time, timeout: Time, alive: set<nat>, sid: Sid, i: nat)
    requires DifferentObjects(st) && Live(Cleanup(st, now, timeout, alive), sid, i)
    ensures var e, ev := At(Cleanup(st, now, timeout, alive), sid, i), CleanupPass(now, timeout, alive);
            if TouchesEntry(st, ev, sid, e.uid) then e.lastAnnouncementAt == now else SameTime(st, sid, e)
  {
    CleanedEntries(st, now, timeout, alive, sid);
    var expired := ExpireRoles(DropDeadTargets(st, alive), now, timeout);
    var j := KeptEntry(expired, st.sessions[sid].spectators, now, alive, i);
    SameConnections(st, now, timeout, alive, st.sessions[sid].spectators[j]);
    hide Cleanup, KeepActive, HasActiveTcp, ExpireRoles, DropDeadTargets, DifferentObjects, TouchesEntry, SameTime;
    WhetherKept(st, now, timeout, alive, sid, j, At(Cleanup(st, now, timeout, alive), sid, i));
  }

  lemma WhetherKept(st: Relay, now: Time, timeout: Time, alive: set<nat>, sid: Sid, j: nat, e: Entry)
    requires DifferentObjects(st) && Live(st, sid, j)
    requires var was := At(st, sid, j);
             if now - was.lastAnnouncementAt > 30.0 then
               KeptByConnection(st, was, now, alive) && e == was.(lastAnnouncementAt := now)
             else e == was
    ensures if TouchesEntry(st, CleanupPass(now, timeout, alive), sid, e.uid) then e.lastAnnouncementAt == now
            else SameTime(st, sid, e)
  {
    OnlyOneKept(st, sid, j, now, alive);
    hide DifferentObjects;
  }

  lemma OnlyOneKept(st: Relay, sid: Sid, j: nat, now: Time, alive: set<nat>)
    requires DifferentObjects(st) && Live(st, sid, j)
    ensures (exists k :: Live(st, sid, k) && At(st, sid, k).uid == At(st, sid, j).uid
                && KeptByConnection(st, At(st, sid, k), now, alive)) <==>
              KeptByConnection(st, At(st, sid, j), now, alive)
  {
    hide KeptByConnection;
  }

  lemma CleanedEntries(st: Relay, now: Time, timeout: Time, alive: set<nat>, sid: Sid)
    requires sid in Cleanup(st, now, timeout, alive).sessions
    ensures sid in st.sessions
    ensures var expired := ExpireRoles(DropDeadTargets(st, alive), now, timeout);
            Cleanup(st, now, timeout, alive).sessions[sid].spectators ==
            KeepActive(expired, st.sessions[sid].spectators, now, alive)
  {
    hide KeepActive, InactiveAddresses, ExpiredPorts, Without;
  }

  lemma SameConnections(st: Relay, now: Time, timeout: Time, alive: set<nat>, e: Entry)
    ensures HasActiveTcp(ExpireRoles(DropDeadTargets(st, alive), now, timeout), e, alive) <==>
              exists a :: a in e.Addresses() && a in st.tcp && st.tcp[a] in alive
  {
    hide ExpireSession, ExpiredAddresses;
  }

  // ---------------------------------------------------------------- one event

  lemma CleanupKeepsTimes(st: Relay, now: Time, timeout: Time, alive: set<nat>)
    ensures var after := Cleanup(st, now, timeout, alive);
            && (forall a | a in after.mappings ::
                  a in st.mappings && after.mappings[a].timestamp == st.mappings[a].timestamp)
            && (forall s | s in after.sessions ::
                  s in st.sessions && after.sessions[s].lastAnnouncementAt == st.sessions[s].lastAnnouncementAt)
  {
    hide KeepActive, InactiveAddresses, ExpiredPorts, Without;
  }

  /** After one event a time stamp is the event's time if the event touches it, and else as it was. */
  lemma StampAfterStep(st: Relay, ev: Event, x: Stamped, t: Time)
    requires Inv(st) && DifferentObjects(st) && HasStamp(Step(st, ev), x, t)
    ensures Touches(st, ev, x) ==> TimeOf(ev) == Some(t)
    ensures !Touches(st, ev, x) ==> HasStamp(st, x, t)
  {
    match x
    case MappingOf(a) => MappingStamp(st, ev, a);
    case SessionOf(sid) => SessionStamp(st, ev, sid);
    case EntryOf(sid, uid) =>
      var i :| Live(Step(st, ev), sid, i) && At(Step(st, ev), sid, i).uid == uid
          && At(Step(st, ev), sid, i).lastAnnouncementAt == t;
      hide Step, TouchesEntry;
      EntryStamp(st, ev, sid, i);
  }

  lemma MappingStamp(st: Relay, ev: Event, a: Address)
    requires Inv(st) && a in Step(st, ev).mappings
    ensures TouchesMapping(st, ev, a) ==> TimeOf(ev) == Some(Step(st, ev).mappings[a].timestamp)
    ensures !TouchesMapping(st, ev, a) ==>
              a in st.mappings && Step(st, ev).mappings[a].timestamp == st.mappings[a].timestamp
  {
    hide Announce, Cleanup, Heartbeat, Inv;
    match ev
    case Announced(_, _, _, _, _, _) => MappingsAfterAnnouncement(st, ev, a);
    case CleanupPass(now, timeout, alive) => CleanupKeepsTimes(st, now, timeout, alive);
    case StrayPacket(addr, now) => HeartbeatKeepsTimes(st, addr, now);
    case _ =>
  }

  lemma HeartbeatKeepsTimes(st: Relay, addr: Address, now: Time)
    ensures var after := Heartbeat(st, addr, now);
            && after.mappings == st.mappings && after.sessions.Keys == st.sessions.Keys
            && forall s | s in after.sessions ::
                 after.sessions[s].lastAnnouncementAt == st.sessions[s].lastAnnouncementAt
  {
  }

  lemma SessionStamp(st: Relay, ev: Event, sid: Sid)
    requires sid in Step(st, ev).sessions
    ensures TouchesSession(st, ev, sid) ==> TimeOf(ev) == Some(Step(st, ev).sessions[sid].lastAnnouncementAt)
    ensures !TouchesSession(st, ev, sid) ==>
              sid in st.sessions
              && Step(st, ev).sessions[sid].lastAnnouncementAt == st.sessions[sid].lastAnnouncementAt
  {
    hide Announce, Cleanup, Heartbeat;
    match ev
    case Announced(_, _, _, _, _, _) => SessionsAfterAnnouncement(st, ev, sid);
    case CleanupPass(now, timeout, alive) => CleanupKeepsTimes(st, now, timeout, alive);
    case StrayPacket(addr, now) => HeartbeatKeepsTimes(st, addr, now);
    case _ =>
  }

  lemma EntryStamp(st: Relay, ev: Event, sid: Sid, i: nat)
    requires Inv(st) && DifferentObjects(st) && Live(Step(st, ev), sid, i)
    ensures var e := At(Step(st, ev), sid, i);
            && (TouchesEntry(st, ev, sid, e.uid) ==> TimeOf(ev) == Some(e.lastAnnouncementAt))
            && (!TouchesEntry(st, ev, sid, e.uid) ==> SameTime(st, sid, e))
  {
    hide Announce, Cleanup, Heartbeat, Inv, DifferentObjects;
    match ev
    case Announced(_, _, _, _, _, _) => EntriesAfterAnnouncement(st, ev, sid, i);
    case CleanupPass(now, timeout, alive) => EntriesAfterCleanup(st, now, timeout, alive, sid, i);
    case StrayPacket(addr, now) => EntriesAfterHeartbeat(st, addr, now, sid, i);
    case _ => assert Live(st, sid, i);
  }

  // ---------------------------------------------------------------- runs

  /** Event `k` was the last one before `n` to touch `x`, at time `t`. */
  ghost predicate LastTouched(events: seq<Event>, k: nat, n: nat, x: Stamped, t: Time) {
    && k < n <= |events| && Touches(Run(events[..k]), events[k], x) && TimeOf(events[k]) == Some(t)
    && forall j | k < j < n :: !Touches(Run(events[..j]), events[j], x)
  }

  /** In every run each time stamp is the time of the last event that touched it. */
  lemma {:induction false} StampsInRuns(events: seq<Event>, n: nat, x: Stamped, t: Time)
    requires n <= |events| && HasStamp(Run(events[..n]), x, t)
    ensures exists k: nat :: LastTouched(events, k, n, x, t)
  {
    hide Step, Run, Touches, HasStamp, Inv, DifferentObjects, TimeOf;
    if n == 0 {
      NoStampAtStart(events, x, t);
    } else {
      var m := n - 1;
      AlwaysGrouped(events[..m]);
      AlwaysDifferent(events[..m]);
      OneStep(events, m);
      StampAfterStep(Run(events[..m]), events[m], x, t);
      if Touches(Run(events[..m]), events[m], x) {
        assert LastTouched(events, m, n, x, t);
      } else {
        StampsInRuns(events, m, x, t);
        var k: nat :| LastTouched(events, k, m, x, t);
        assert LastTouched(events, k, n, x, t);
      }
    }
  }

  lemma OneStep(events: seq<Event>, m: nat)
    requires m < |events|
    ensures Run(events[..m + 1]) == Step(Run(events[..m]), events[m])
  {
    assert events[..m + 1][..m] == events[..m];
  }

  lemma NoStampAtStart(events: seq<Event>, x: Stamped, t: Time)
    ensures !HasStamp(Run(events[..0]), x, t)
  {
    assert events[..0] == [];
  }
}
