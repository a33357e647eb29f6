/**
 * What registrations of peers leave behind: mappings without an owner, index entries without a live
 * spectator, addresses on record that nobody uses. When one registration does, and a run in which
 * all three arise. OwnerlessKeys, IndexHistory and AbandonedAddresses treat all events and runs.
 */
module RelayLeftovers {
  import opened RelayTypes
  import opened RelaySpec
  import opened SpectatorIndex
  import opened RelayTable
  import opened SharedAddresses

  // ---------------------------------------------------------------- three kinds of leftovers

  predicate Owns(s: Session, a: Address) {
    a in AddrsOf(s.streamer) || a in AddrsOf(s.viewer)
  }

  /** `a` sends, but is no peer of any session. */
  ghost predicate Ownerless(st: Relay, a: Address) {
    a in st.mappings && forall t | t in st.sessions :: !Owns(st.sessions[t], a)
  }

  /** The index has `a`, for an entry that no session holds any more. */
  ghost predicate StaleInIndex(st: Relay, a: Address) {
    a in st.index && forall s, i | Live(st, s, i) :: At(st, s, i).uid != st.index[a]
  }

  predicate SpectatedBy(s: Session, a: Address) {
    exists e | e in s.spectators :: a in e.Addresses()
  }

  /** `a` is on record in the session, but is no address of its peers and spectators. */
  predicate Abandoned(s: Session, a: Address) {
    a in s.addresses && !Owns(s, a) && !SpectatedBy(s, a)
  }

  // ---------------------------------------------------------------- exactly when they arise

  /** The keys of the table after a registration into a ready session */
  lemma KeysAfterRegistration(st: Relay, sid: Sid, role: Role, port: PortType, addr: Address, now: Time)
    requires role != Spectator
    ensures var recorded, after := RecordPeer(st, sid, role, port, addr, now),
              RegisterPeer(st, sid, role, port, addr, now);
            && sid in recorded.sessions
            && recorded.mappings == st.mappings && recorded.index == st.index == after.index
                && after.nextUid == st.nextUid
            && var s := recorded.sessions[sid];
            && (!s.IsReady() ==> after == recorded)
            && (s.IsReady() ==>
                  && after.sessions == recorded.sessions - Overwritten(recorded, sid)
                  && after.mappings.Keys == (st.mappings.Keys - s.addresses) + PeerAddresses(s))
  {
    var recorded := RecordPeer(st, sid, role, port, addr, now);
    var s := recorded.sessions[sid];
    hide KeepTimestamps, Overwritten, Without, CompleteAddresses, AttachSpectators;
    if s.IsReady() {
      KeysOfLatest(recorded.mappings, s, now);
      AttachKeys(UpdateMappings(recorded, sid, now).mappings, s, CompleteAddresses(s), now);
    }
  }

  lemma KeysOfLatest(before: map<Address, Mapping>, s: Session, now: Time)
    requires s.IsReady()
    ensures KeepTimestamps(before, NewMappings(s, now)).Keys == PeerAddresses(s)
  {
  }

  lemma PeersAreOwned(s: Session, a: Address)
    requires s.IsReady()
    ensures Owns(s, a) <==> a in PeerAddresses(s)
  {
    TwoAddresses(s.streamer);
    TwoAddresses(s.viewer);
  }

  /**
   * After any registration of a peer a key is without an owner if and only if it was a key before,
   * the table is not rebuilt or the registering session does not have it on record, and every
   * session that owns it once the peer is recorded gets overwritten.
   */
  lemma OwnerlessIff(st: Relay, sid: Sid, role: Role, port: PortType, addr: Address, now: Time, a: Address)
    requires role != Spectator
    ensures var recorded, after := RecordPeer(st, sid, role, port, addr, now),
              RegisterPeer(st, sid, role, port, addr, now);
            var s := recorded.sessions[sid];
            Ownerless(after, a) <==>
              && a in st.mappings && (s.IsReady() ==> a !in s.addresses)
              && forall t | t in recorded.sessions && Owns(recorded.sessions[t], a) ::
                   s.IsReady() && t in Overwritten(recorded, sid)
  {
    KeysAfterRegistration(st, sid, role, port, addr, now);
    hide RecordPeer, RegisterPeer, Owns, PeerAddresses;
    var recorded, after := RecordPeer(st, sid, role, port, addr, now), RegisterPeer(st, sid, role, port, addr, now);
    var s := recorded.sessions[sid];
    if s.IsReady() {
      PeersAreOwned(s, a);
      assert sid in after.sessions && after.sessions[sid] == s;
      forall t | t in recorded.sessions ensures t in after.sessions <==> t !in Overwritten(recorded, sid) {
      }
    }
  }

  /** An index entry stands for nobody afterwards if and only if all it stood for were overwritten. */
  lemma StaleIff(st: Relay, sid: Sid, role: Role, port: PortType, addr: Address, now: Time, a: Address)
    requires role != Spectator
    ensures var recorded, after := RecordPeer(st, sid, role, port, addr, now),
              RegisterPeer(st, sid, role, port, addr, now);
            StaleInIndex(after, a) <==>
              && a in st.index
              && forall s, i | Live(st, s, i) && At(st, s, i).uid == st.index[a] ::
                   recorded.sessions[sid].IsReady() && s in Overwritten(recorded, sid)
  {
    KeysAfterRegistration(st, sid, role, port, addr, now);
    RecordedSpectators(st, sid, role, port, addr, now);
    KnownAreRecorded(st, sid, role, port, addr, now);
    hide RecordPeer, RegisterPeer, Overwritten;
    var recorded, after := RecordPeer(st, sid, role, port, addr, now), RegisterPeer(st, sid, role, port, addr, now);
    var ready := recorded.sessions[sid].IsReady();
    forall s, i: nat ensures Live(after, s, i) <==> Live(st, s, i) && !(ready && s in Overwritten(recorded, sid)) {
    }
    assert forall s, i | Live(after, s, i) :: At(after, s, i) == At(st, s, i);
  }

  lemma KnownAreRecorded(st: Relay, sid: Sid, role: Role, port: PortType, addr: Address, now: Time)
    requires role != Spectator
    ensures RecordPeer(st, sid, role, port, addr, now).sessions.Keys == st.sessions.Keys + {sid}
  {
  }

  /** The address that a port had before is abandoned if and only if nobody else in the session uses it. */
  lemma AbandonedIff(s: Session, role: Role, port: PortType, peer: PeerEntry, a: Address)
    requires role != Spectator && port in PortsOf(s, role) && PortsOf(s, role)[port].addr == a
    ensures Abandoned(RegisterPeerPort(s, role, port, peer), a) <==>
              && a in s.addresses && a != peer.addr && !SpectatedBy(s, a)
              && forall r, p | p in PortsOf(s, r) && !(r == role && p == port) :: PortsOf(s, r)[p].addr != a
  {
    var s' := RegisterPeerPort(s, role, port, peer);
    forall r, p ensures p in PortsOf(s', r) <==> p in PortsOf(s, r) || (r == role && p == port) {
      match r case _ =>
    }
    forall r, p | p in PortsOf(s', r) ensures PortsOf(s', r)[p] == if r == role
        && p == port then peer else PortsOf(s, r)[p] {
      match r case _ =>
    }
    OwnsByPort(s', a);
    hide RegisterPeerPort, Owns;
    assert SpectatedBy(s', a) == SpectatedBy(s, a);
  }

  lemma OwnsByPort(s: Session, a: Address)
    ensures Owns(s, a) <==> exists r, p :: p in PortsOf(s, r) && PortsOf(s, r)[p].addr == a
  {
    if a in AddrsOf(s.streamer) {
      var p :| p in s.streamer && s.streamer[p].addr == a;
      assert p in PortsOf(s, Streamer);
    }
    if a in AddrsOf(s.viewer) {
      var p :| p in s.viewer && s.viewer[p].addr == a;
      assert p in PortsOf(s, Viewer);
    }
    if r, p :| p in PortsOf(s, r) && PortsOf(s, r)[p].addr == a {
      match r case Streamer => case Viewer => case Spectator =>
    }
  }

  // ---------------------------------------------------------------- a run with all three

  const SPECTATOR := Address("198.51.100.7", 1)

  function Peer(n: nat): Address {
    Address("192.0.2.1", n)
  }

  function Entered(a: Address): PeerEntry {
    PeerEntry(a, Udp, 1.0)
  }

  /** A streamer or viewer announces itself to a session that the store knows. */
  function Joins(sid: Sid, role: string, port: string, a: Address): Event {
    Announced(role, port, sid, a, StoreAnswer(true, None), 1.0)
  }

  function FourJoin(sid: Sid, a: Address, b: Address, c: Address, d: Address): seq<Event> {
    [Joins(sid, "streamer", "video", a), Joins(sid, "streamer", "control", b),
     Joins(sid, "viewer", "video", c), Joins(sid, "viewer", "control", d)]
  }

  /** Nobody is connected over TCP, and no peer address spectates. */
  ghost predicate Plain(st: Relay) {
    st.tcp == map[] && forall t, n: nat | t in st.sessions :: !Spectates(st.sessions[t], Peer(n))
  }

  function SessionOf(st: Relay, sid: Sid): Session {
    if sid in st.sessions then st.sessions[sid] else EmptySession(sid, 1.0)
  }

  lemma JoinIs(events: seq<Event>, sid: Sid, role: string, port: string, r: Role, p: PortType, n: nat)
    requires ParseRole(role) == Some(r) && ParsePort(port) == Some(p) && r != Spectator && Plain(Run(events))
    ensures Run(events + [Joins(sid, role, port, Peer(n))]) == RegisterPeer(Run(events), sid, r, p, Peer(n), 1.0)
  {
    hide RegisterPeer, Plain, Spectates;
    OneMoreEvent(events, Joins(sid, role, port, Peer(n)));
    NobodySpectates(Run(events), n);
    AnnouncedByPeer(Run(events), Joins(sid, role, port, Peer(n)), Target(sid, r, p));
  }

  lemma NobodySpectates(st: Relay, n: nat)
    requires Plain(st)
    ensures forall t | t in st.sessions :: !Spectates(st.sessions[t], Peer(n))
  {
  }

  /** What one registration does when the table is not rebuilt, and when it is. */
  lemma RecordedIs(st: Relay, sid: Sid, r: Role, p: PortType, n: nat)
    requires r != Spectator && Plain(st)
    ensures var recorded := RecordPeer(st, sid, r, p, Peer(n), 1.0);
            && recorded.sessions == st.sessions[sid := RegisterPeerPort(SessionOf(st, sid), r, p, Entered(Peer(n)))]
            && recorded.tcp == st.tcp && Plain(recorded)
  {
    var recorded := RecordPeer(st, sid, r, p, Peer(n), 1.0);
    assert recorded.sessions == st.sessions[sid := RegisterPeerPort(SessionOf(st, sid), r, p, Entered(Peer(n)))];
    hide RecordPeer;
    PlainKept(st, recorded);
  }

  lemma PlainKept(st: Relay, later: Relay)
    requires Plain(st) && later.tcp == st.tcp
    requires forall t | t in later.sessions :: later.sessions[t].spectators == SessionOf(st, t).spectators
    ensures Plain(later)
  {
    forall t, k: nat | t in later.sessions ensures !Spectates(later.sessions[t], Peer(k)) {
      assert t in st.sessions ==> !Spectates(st.sessions[t], Peer(k));
    }
  }

  lemma StaysPlain(st: Relay, sid: Sid, r: Role, p: PortType, n: nat)
    requires r != Spectator && Plain(st)
    ensures Plain(RegisterPeer(st, sid, r, p, Peer(n), 1.0))
  {
    RecordedIs(st, sid, r, p, n);
    KeysAfterRegistration(st, sid, r, p, Peer(n), 1.0);
    TcpKept(st, sid, r, p, n);
    hide RegisterPeer, RecordPeer, Spectates, Overwritten;
  }

  lemma TcpKept(st: Relay, sid: Sid, r: Role, p: PortType, n: nat)
    requires r != Spectator
    ensures RegisterPeer(st, sid, r, p, Peer(n), 1.0).tcp == st.tcp
  {
    hide NewMappings, KeepTimestamps, Overwritten, Without, AttachSpectators, CompleteAddresses;
  }

  /** The other sessions with which `s` shares an address */
  function OverwrittenBy(st: Relay, sid: Sid, s: Session): set<Sid> {
    set t | t in st.sessions && t != sid && st.sessions[t].addresses * s.addresses != {}
  }

  /** The session after its four peers have announced themselves */
  function Complete(s: Session, a: Address, b: Address, c: Address, d: Address): Session {
    s.(streamer := map[Video := Entered(a), Control := Entered(b)],
       viewer := map[Video := Entered(c), Control := Entered(d)],
       addresses := s.addresses + {a, b, c, d},
       lastAnnouncementAt := 1.0)
  }

  /** The session after one more of its peers has announced itself */
  function With(s: Session, r: Role, p: PortType, a: Address): Session
    requires r != Spectator
  {
    RegisterPeerPort(s, r, p, Entered(a))
  }

  lemma FourMakeComplete(s: Session, a: Address, b: Address, c: Address, d: Address)
    requires s.AllRolesEmpty()
    ensures var one := With(s, Streamer, Video, a);
            var two := With(one, Streamer, Control, b);
            var three := With(two, Viewer, Video, c);
            && !one.IsReady() && !two.IsReady() && !three.IsReady()
            && With(three, Viewer, Control, d) == Complete(s, a, b, c, d) && Complete(s, a, b, c, d).IsReady()
  {
    var four := With(With(With(With(s, Streamer, Video, a), Streamer, Control, b), Viewer, Video, c), Viewer, Control,
        d);
    assert four.addresses == s.addresses + {a, b, c, d};
    assert four.streamer == map[Video := Entered(a), Control := Entered(b)];
    assert four.viewer == map[Video := Entered(c), Control := Entered(d)];
  }

  /** An announcement that does not complete the session is only recorded. */
  lemma OnlyRecorded(st: Relay, sid: Sid, r: Role, p: PortType, n: nat)
    requires r != Spectator && Plain(st) && !With(SessionOf(st, sid), r, p, Peer(n)).IsReady()
    ensures var after := RegisterPeer(st, sid, r, p, Peer(n), 1.0);
            && after.sessions == st.sessions[sid := With(SessionOf(st, sid), r, p, Peer(n))]
            && after.mappings == st.mappings && after.index == st.index && Plain(after)
            && SessionOf(after, sid) == With(SessionOf(st, sid), r, p, Peer(n))
  {
    RecordedIs(st, sid, r, p, n);
    KeysAfterRegistration(st, sid, r, p, Peer(n), 1.0);
    hide RegisterPeer, RecordPeer, Spectates, RegisterPeerPort;
  }

  /** The announcement that completes the session rebuilds the table. */
  lemma Rebuilt(st: Relay, sid: Sid, r: Role, p: PortType, n: nat)
    requires r != Spectator && Plain(st) && With(SessionOf(st, sid), r, p, Peer(n)).IsReady()
    ensures var after := RegisterPeer(st, sid, r, p, Peer(n), 1.0);
            var s := With(SessionOf(st, sid), r, p, Peer(n));
            && after.sessions == st.sessions[sid := s] - OverwrittenBy(st, sid, s)
            && after.mappings.Keys == (st.mappings.Keys - s.addresses) + PeerAddresses(s)
            && after.index == st.index && Plain(after)
            && (st.mappings == map[] && s.spectators == [] ==> after.mappings == NewMappings(s, 1.0))
  {
    hide RegisterPeer, RecordPeer, Plain, RegisterPeerPort, PeerAddresses, Overwritten, NewMappings;
    RecordedIs(st, sid, r, p, n);
    FirstTable(st, sid, r, p, n);
    KeysAfterRegistration(st, sid, r, p, Peer(n), 1.0);
    StaysPlain(st, sid, r, p, n);
    OverwrittenAs(st, RecordPeer(st, sid, r, p, Peer(n), 1.0), sid, With(SessionOf(st, sid), r, p, Peer(n)));
  }

  /** The first table of a relay without spectators */
  lemma FirstTable(st: Relay, sid: Sid, r: Role, p: PortType, n: nat)
    requires r != Spectator
    ensures var s := RecordPeer(st, sid, r, p, Peer(n), 1.0).sessions[sid];
            s.IsReady() && st.mappings == map[] && s.spectators == [] ==>
              RegisterPeer(st, sid, r, p, Peer(n), 1.0).mappings == NewMappings(s, 1.0)
  {
    var recorded := RecordPeer(st, sid, r, p, Peer(n), 1.0);
    var s := recorded.sessions[sid];
    if s.IsReady() && st.mappings == map[] && s.spectators == [] {
      hide NewMappings, RecordPeer, Without, Overwritten;
      var latest := UpdateMappings(recorded, sid, 1.0).mappings;
      assert latest == NewMappings(s, 1.0);
      NobodyToAttach(latest, s);
    }
  }

  lemma NobodyToAttach(mappings: map<Address, Mapping>, s: Session)
    requires s.spectators == []
    ensures AttachSpectators(mappings, s, CompleteAddresses(s), 1.0) == mappings
  {
    assert CompleteAddresses(s) == {};
  }

  lemma OverwrittenAs(st: Relay, recorded: Relay, sid: Sid, s: Session)
    requires recorded.sessions == st.sessions[sid := s]
    ensures sid in recorded.sessions && Overwritten(recorded, sid) == OverwrittenBy(st, sid, s)
  {
  }

  /** Three announcements are only recorded, the fourth rebuilds the table. */
  lemma AfterFour(events: seq<Event>, sid: Sid, a: nat, b: nat, c: nat, d: nat)
    requires Plain(Run(events)) && SessionOf(Run(events), sid).AllRolesEmpty()
    ensures var st := Run(events);
            var after := Run(events + FourJoin(sid, Peer(a), Peer(b), Peer(c), Peer(d)));
            var s := Complete(SessionOf(st, sid), Peer(a), Peer(b), Peer(c), Peer(d));
            && after.sessions == st.sessions[sid := s] - OverwrittenBy(st, sid, s)
            && after.mappings.Keys == (st.mappings.Keys - s.addresses) + {Peer(a), Peer(b), Peer(c), Peer(d)}
            && after.index == st.index && Plain(after) && s.IsReady()
            && (st.mappings == map[] && s.spectators == [] ==> after.mappings == NewMappings(s, 1.0))
  {
    hide *;
    var e := FourJoin(sid, Peer(a), Peer(b), Peer(c), Peer(d));
    FourEvents(events, sid, Peer(a), Peer(b), Peer(c), Peer(d));
    Names();
    var one, two, three := events + [e[0]], events + [e[0]] + [e[1]], events + [e[0]] + [e[1]] + [e[2]];
    var st := Run(events);
    FourMakeComplete(SessionOf(st, sid), Peer(a), Peer(b), Peer(c), Peer(d));
    JoinIs(events, sid, "streamer", "video", Streamer, Video, a);
    OnlyRecorded(st, sid, Streamer, Video, a);
    JoinIs(one, sid, "streamer", "control", Streamer, Control, b);
    OnlyRecorded(Run(one), sid, Streamer, Control, b);
    JoinIs(two, sid, "viewer", "video", Viewer, Video, c);
    OnlyRecorded(Run(two), sid, Viewer, Video, c);
    JoinIs(three, sid, "viewer", "control", Viewer, Control, d);
    Rebuilt(Run(three), sid, Viewer, Control, d);
    var s := Complete(SessionOf(st, sid), Peer(a), Peer(b), Peer(c), Peer(d));
    FourPeers(SessionOf(st, sid), Peer(a), Peer(b), Peer(c), Peer(d));
    SameOverwritten(st, Run(three), sid, s);
  }

  lemma FourEvents(events: seq<Event>, sid: Sid, a: Address, b: Address, c: Address, d: Address)
    ensures var e := FourJoin(sid, a, b, c, d);
            && |e| == 4 && events + e == events + [e[0]] + [e[1]] + [e[2]] + [e[3]]
            && e[0] == Joins(sid, "streamer", "video", a) && e[1] == Joins(sid, "streamer", "control", b)
            && e[2] == Joins(sid, "viewer", "video", c) && e[3] == Joins(sid, "viewer", "control", d)
  {
  }

  lemma Names()
    ensures ParseRole("streamer") == Some(Streamer) && ParseRole("viewer") == Some(Viewer)
    ensures ParsePort("video") == Some(Video) && ParsePort("control") == Some(Control)
  {
  }

  lemma FourPeers(s: Session, a: Address, b: Address, c: Address, d: Address)
    ensures Complete(s, a, b, c, d).IsReady() && PeerAddresses(Complete(s, a, b, c, d)) == {a, b, c, d}
  {
  }

  /** Only the session itself has changed since, so the same others are overwritten. */
  lemma SameOverwritten(st: Relay, later: Relay, sid: Sid, s: Session)
    requires sid in later.sessions && later.sessions == st.sessions[sid := later.sessions[sid]]
    ensures later.sessions[sid := s] == st.sessions[sid := s]
              && OverwrittenBy(later, sid, s) == OverwrittenBy(st, sid, s)
  {
  }

  /** The announcement of the spectator creates the first session. */
  lemma SpectatorFirst(sid: Sid) returns (ev: Event)
    requires sid != ""
    ensures var st := Run([ev]);
            && Plain(st) && st.mappings == map[] && st.sessions.Keys == {sid} && st.sessions[sid].AllRolesEmpty()
            && SPECTATOR in st.index
  {
    ev := Announced("spectator", "video", "id", SPECTATOR, StoreAnswer(false, Some(sid)), 1.0);
    assert [] + [ev] == [ev];
    OneMoreEvent([], ev);
    assert Accepts(ev.role, ev.port, ev.sid, ev.store) == Some(Target(sid, Spectator, Video));
    assert Run([ev]) == RegisterSpectator(START, sid, Video, SPECTATOR, 1.0) by { hide RegisterSpectator; }
    assert Run([]) == START;
    hide Run, Step;
    SpectatorAlone(sid);
  }

  lemma SpectatorAlone(sid: Sid)
    ensures var st := RegisterSpectator(START, sid, Video, SPECTATOR, 1.0);
            && Plain(st) && st.mappings == map[] && st.sessions.Keys == {sid} && st.sessions[sid].AllRolesEmpty()
            && SPECTATOR in st.index
  {
  }

  /**
   * A session with a spectator becomes ready; another session takes over one of its addresses
   * and then changes one of its own. The first session's other mappings stay without an owner,
   * its spectator stays in the index, and the changed address stays on record.
   */
  lemma AllThreeHappen() returns (events: seq<Event>)
    ensures var st := Run(events);
            && Ownerless(st, Peer(2))
            && StaleInIndex(st, SPECTATOR)
            && "second" in st.sessions && Abandoned(st.sessions["second"], Peer(7))
  {
    hide *;
    Names();
    var ev := SpectatorFirst("first");
    var one := [ev];
    KnownSession(Run(one), "first");
    AfterFour(one, "first", 1, 2, 3, 4);
    var two := one + FourJoin("first", Peer(1), Peer(2), Peer(3), Peer(4));
    FirstReady(Run(one), Run(two), SessionOf(Run(one), "first"));
    AfterFour(two, "second", 1, 5, 6, 7);
    var three := two + FourJoin("second", Peer(1), Peer(5), Peer(6), Peer(7));
    FirstOverwritten(Run(two), Run(three));
    JoinIs(three, "second", "viewer", "control", Viewer, Control, 8);
    events := three + [Joins("second", "viewer", "control", Peer(8))];
    StillReady(Run(three));
    Rebuilt(Run(three), "second", Viewer, Control, 8);
    LeftBehind(Run(three), Run(events));
  }

  const OTHERS := Complete(EmptySession("second", 1.0), Peer(1), Peer(5), Peer(6), Peer(7))

  lemma KnownSession(st: Relay, sid: Sid)
    requires sid in st.sessions
    ensures SessionOf(st, sid) == st.sessions[sid]
  {
  }

  /** The first session is alone, and its four addresses are the keys of the table. */
  lemma FirstReady(before: Relay, st: Relay, s: Session)
    requires before.sessions.Keys == {"first"} && before.mappings == map[]
    requires var s' := Complete(s, Peer(1), Peer(2), Peer(3), Peer(4));
             && st.sessions == before.sessions["first" := s'] - OverwrittenBy(before, "first", s')
             && st.mappings.Keys == (before.mappings.Keys - s'.addresses) + {Peer(1), Peer(2), Peer(3), Peer(4)}
    ensures st.sessions.Keys == {"first"} && Peer(1) in st.sessions["first"].addresses
    ensures st.mappings.Keys == {Peer(1), Peer(2), Peer(3), Peer(4)}
    ensures SessionOf(st, "second") == EmptySession("second", 1.0) && SessionOf(st, "second").AllRolesEmpty()
  {
  }

  /** The second session shares the first one's address 1, and is alone afterwards. */
  lemma FirstOverwritten(before: Relay, st: Relay)
    requires before.sessions.Keys == {"first"} && Peer(1) in before.sessions["first"].addresses
    requires before.mappings.Keys == {Peer(1), Peer(2), Peer(3), Peer(4)}
    requires var s := Complete(EmptySession("second", 1.0), Peer(1), Peer(5), Peer(6), Peer(7));
             && st.sessions == before.sessions["second" := s] - OverwrittenBy(before, "second", s)
             && st.mappings.Keys == (before.mappings.Keys - s.addresses) + {Peer(1), Peer(5), Peer(6), Peer(7)}
    ensures st.sessions == map["second" := OTHERS] && Peer(2) in st.mappings && SessionOf(st, "second") == OTHERS
  {
    assert "first" in OverwrittenBy(before, "second", OTHERS);
    assert st.sessions.Keys == {"second"};
  }

  lemma StillReady(st: Relay)
    requires SessionOf(st, "second") == OTHERS
    ensures With(SessionOf(st, "second"), Viewer, Control, Peer(8)).IsReady()
  {
  }

  lemma LeftBehind(before: Relay, st: Relay)
    requires before.sessions == map["second" := OTHERS] && Peer(2) in before.mappings && SPECTATOR in before.index
    requires SessionOf(before, "second") == OTHERS
    requires var s := With(OTHERS, Viewer, Control, Peer(8));
             && st.sessions == before.sessions["second" := s] - OverwrittenBy(before, "second", s)
             && s.IsReady() && st.mappings.Keys == (before.mappings.Keys - s.addresses) + PeerAddresses(s)
             && st.index == before.index
    ensures Ownerless(st, Peer(2)) && StaleInIndex(st, SPECTATOR)
    ensures "second" in st.sessions && Abandoned(st.sessions["second"], Peer(7))
  {
    var s := With(OTHERS, Viewer, Control, Peer(8));
    assert st.sessions.Keys == {"second"} && st.sessions["second"] == s;
    assert s.addresses == {Peer(1), Peer(5), Peer(6), Peer(7), Peer(8)};
    TwoAddresses(s.streamer);
    TwoAddresses(s.viewer);
    assert s.spectators == [];
  }
}
