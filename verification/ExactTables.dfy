/**
 * When no address is used twice, the table is exact throughout: in every run whose accepted
 * addresses each serve one session, one role and one port, every ready session has exactly its own
 * mappings, whatever packets, cleanup passes, spectators and other sessions do in between.
 */
module ExactTables {
  import opened RelayTypes
  import opened RelaySpec
  import opened SpectatorGrouping
  import opened RelaySafety
  import opened RelayTable
  import opened RelayCleanup

  /** Every address was accepted for one session, role and port only. */
  ghost predicate OneUse(log: set<Accepted>) {
    forall x, y | x in log && y in log && x.addr == y.addr :: x == y
  }

  ghost predicate Knows(log: set<Accepted>, sid: Sid, a: Address) {
    exists role, port :: Accepted(sid, role, port, a) in log
  }

  /** Sessions have only their own addresses on record. */
  ghost predicate Recorded(st: Relay, log: set<Accepted>) {
    forall sid, a | sid in st.sessions && a in st.sessions[sid].addresses :: Knows(log, sid, a)
  }

  /** What the table says about the session's own addresses is exactly what it should. */
  ghost predicate OwnTable(mappings: map<Address, Mapping>, s: Session) {
    s.IsReady() ==>
      && TargetsExact(mappings, s)
      && forall a | a in s.addresses && a in mappings :: a in PeerAddresses(s)
  }

  ghost predicate AllExact(st: Relay) {
    forall sid | sid in st.sessions :: OwnTable(st.mappings, st.sessions[sid])
  }

  /** What the steps keep, for a log that lists every address once */
  ghost predicate Exact(st: Relay, log: set<Accepted>) {
    Inv(st) && Safe(st, log) && Recorded(st, log) && AllExact(st)
  }

  lemma ExactParts(st: Relay, log: set<Accepted>)
    requires Exact(st, log)
    ensures Inv(st) && Safe(st, log) && AllLogged(st.sessions, log)
  {
    hide Inv, TableSafe, AllLogged, Recorded, AllExact;
  }

  // ---------------------------------------------------------------- who uses an address

  /** The peers of a ready session are four addresses of that session. */
  lemma OwnPeers(s: Session, sid: Sid, log: set<Accepted>)
    requires OneUse(log) && SessionLogged(s, sid, log) && s.IsReady()
    ensures FourDistinct(s) && ViewerDoesNotSpectate(s)
    ensures forall a | a in PeerAddresses(s) :: Knows(log, sid, a)
  {
    assert Accepted(sid, Streamer, Video, s.streamer[Video].addr) in log;
    assert Accepted(sid, Streamer, Control, s.streamer[Control].addr) in log;
    assert Accepted(sid, Viewer, Video, s.viewer[Video].addr) in log;
    assert Accepted(sid, Viewer, Control, s.viewer[Control].addr) in log;
    forall i, p | 0 <= i < |s.spectators| && p in s.spectators[i].ports
      ensures s.spectators[i].ports[p].addr != s.viewer[Video].addr
                && s.spectators[i].ports[p].addr != s.viewer[Control].addr
    {
      assert PortsLogged(s.spectators[i].ports, sid, Spectator, log);
      assert Accepted(sid, Spectator, p, s.spectators[i].ports[p].addr) in log;
    }
  }

  lemma OneSession(log: set<Accepted>, sid: Sid, t: Sid, a: Address)
    requires OneUse(log) && Knows(log, sid, a) && Knows(log, t, a)
    ensures sid == t
  {
  }

  /** Nothing changes at the addresses of `sid`. */
  ghost predicate SameAt(before: map<Address, Mapping>, after: map<Address, Mapping>, log: set<Accepted>, sid: Sid) {
    forall a | Knows(log, sid, a) :: (a in before <==>
        a in after) && (a in before ==> after[a].targets == before[a].targets)
  }

  lemma SameAtKeeps(before: map<Address, Mapping>, after: map<Address, Mapping>, s: Session, sid: Sid,
      log: set<Accepted>)
    requires OneUse(log) && SessionLogged(s, sid, log) && OwnTable(before, s) && SameAt(before, after, log, sid)
    requires forall a | a in s.addresses :: Knows(log, sid, a)
    ensures OwnTable(after, s)
  {
    hide Audience, SessionLogged, OneUse, FourDistinct, ViewerDoesNotSpectate;
    if s.IsReady() {
      OwnPeers(s, sid, log);
    }
  }

  /** The same session with other time stamps or fewer addresses on record */
  lemma LikeBefore(mappings: map<Address, Mapping>, s: Session, s': Session)
    requires OwnTable(mappings, s) && SamePorts(s, s') && s'.addresses <= s.addresses
    requires |s'.spectators| == |s.spectators|
    requires forall i | 0 <= i < |s.spectators| :: s'.spectators[i].ports == s.spectators[i].ports
    ensures OwnTable(mappings, s')
  {
    SamePortsSameAudience(s, s', Video);
    SamePortsSameAudience(s, s', Control);
    hide Audience;
  }

  lemma SamePortsSameAudience(s: Session, s': Session, p: PortType)
    requires |s'.spectators| == |s.spectators|
    requires forall i | 0 <= i < |s.spectators| :: s'.spectators[i].ports == s.spectators[i].ports
    ensures Audience(s', p) == Audience(s, p)
  {
    forall i | 0 <= i < |s.spectators|
      ensures s'.spectators[i].IsComplete() == s.spectators[i].IsComplete()
      ensures s.spectators[i].IsComplete() ==> s'.spectators[i].PortAddr(p) == s.spectators[i].PortAddr(p)
    {
    }
  }

  // ---------------------------------------------------------------- spectators leave

  /** The entries that stay share no address with `gone`, the others have all theirs in it. */
  ghost predicate Leaves(before: seq<Entry>, after: seq<Entry>, gone: set<Address>) {
    && (forall k | 0 <= k < |after| :: HasPorts(before, after[k].ports) && AddrsOf(after[k].ports) !! gone)
    && (forall k | 0 <= k < |before| :: before[k].Addresses() <= gone || HasPorts(after, before[k].ports))
  }

  predicate HasPorts(entries: seq<Entry>, ports: Ports) {
    exists k :: 0 <= k < |entries| && entries[k].ports == ports
  }

  lemma AudienceShrinks(s: Session, s': Session, gone: set<Address>, p: PortType)
    requires Leaves(s.spectators, s'.spectators, gone)
    ensures Audience(s', p) == Audience(s, p) - gone
  {
    forall a | a in Audience(s', p) ensures a in Audience(s, p) - gone {
      var k :| 0 <= k < |s'.spectators| && s'.spectators[k].IsComplete() && s'.spectators[k].PortAddr(p) == a;
      assert HasPorts(s.spectators, s'.spectators[k].ports);
      var j :| 0 <= j < |s.spectators| && s.spectators[j].ports == s'.spectators[k].ports;
      assert s.spectators[j].IsComplete() && s.spectators[j].PortAddr(p) == a && a in AddrsOf(s'.spectators[k].ports);
    }
    forall a | a in Audience(s, p) - gone ensures a in Audience(s', p) {
      var j :| 0 <= j < |s.spectators| && s.spectators[j].IsComplete() && s.spectators[j].PortAddr(p) == a;
      assert a in s.spectators[j].Addresses();
      var k :| 0 <= k < |s'.spectators| && s'.spectators[k].ports == s.spectators[j].ports;
      assert s'.spectators[k].IsComplete() && s'.spectators[k].PortAddr(p) == a;
    }
  }

  /** Spectators leave, and the streamer stops sending to them. */
  lemma LeavingKeepsTargets(
      mappings: map<Address, Mapping>, after: map<Address, Mapping>, s: Session, s': Session, gone: set<Address>)
    requires FourDistinct(s) && TargetsExact(mappings, s)
    requires SamePorts(s, s') && Leaves(s.spectators, s'.spectators, gone)
    requires s.viewer[Video].addr !in gone && s.viewer[Control].addr !in gone
    requires forall a | a in PeerAddresses(s) && a in mappings ::
               && a in after
               && after[a].targets ==
                  if a in AddrsOf(s.streamer) then mappings[a].targets - gone else mappings[a].targets
    ensures TargetsExact(after, s')
  {
    AudienceShrinks(s, s', gone, Video);
    AudienceShrinks(s, s', gone, Control);
    TwoAddresses(s.streamer);
    hide Audience, Leaves, AddrsOf;
    var sv, sc := s.streamer[Video].addr, s.streamer[Control].addr;
    assert after[sv].targets == {s.viewer[Video].addr} + Audience(s', Video);
    assert after[sc].targets == {s.viewer[Control].addr} + Audience(s', Control);
  }

  lemma LeavingKeepsOwn(
      mappings: map<Address, Mapping>, after: map<Address, Mapping>, s: Session, s': Session, gone: set<Address>)
    requires OwnTable(mappings, s) && s.IsReady() && FourDistinct(s) && ViewerDoesNotSpectate(s)
    requires SamePorts(s, s') && s'.addresses <= s.addresses && Leaves(s.spectators, s'.spectators, gone)
    requires s.viewer[Video].addr !in gone && s.viewer[Control].addr !in gone
    requires forall a | a in s.addresses || a in PeerAddresses(s) :: a in after <==> a in mappings
    requires forall a | a in PeerAddresses(s) && a in mappings && a in after ::
               after[a].targets == if a in AddrsOf(s.streamer) then mappings[a].targets - gone else mappings[a].targets
    ensures OwnTable(after, s')
  {
    hide TargetsExact, Leaves, ViewerDoesNotSpectate, AddrsOf;
    LeavingKeepsTargets(mappings, after, s, s', gone);
  }

  lemma RemovedLeaves(s: Session, i: nat)
    requires Grouped(s.spectators) && i < |s.spectators|
    ensures Leaves(s.spectators, RemoveSpectatorAt(s, i).spectators, s.spectators[i].Addresses())
  {
    var before, after, gone := s.spectators, RemoveSpectatorAt(s, i).spectators, s.spectators[i].Addresses();
    HasAddress(before[i]);
    var a :| a in gone;
    LookupIsUnambiguous(before, i, a);
    hide Grouped;
    forall k | 0 <= k < |after| ensures HasPorts(before, after[k].ports) && AddrsOf(after[k].ports) !! gone {
      var j := if k < i then k else k + 1;
      assert after[k] == before[j];
    }
    forall k | 0 <= k < |before| ensures before[k].Addresses() <= gone || HasPorts(after, before[k].ports) {
      if k != i {
        var j := if k < i then k else k - 1;
        assert after[j] == before[k];
      }
    }
  }

  /** An address that peers and spectators do not share */
  lemma NotTheViewers(s: Session, i: nat)
    requires s.IsReady() && ViewerDoesNotSpectate(s) && i < |s.spectators|
    ensures s.viewer[Video].addr !in s.spectators[i].Addresses()
              && s.viewer[Control].addr !in s.spectators[i].Addresses()
  {
  }

  /** `after` differs from `before` only at addresses of `sid`. */
  ghost predicate SameElsewhere(before: map<Address, Mapping>, after: map<Address, Mapping>, log: set<Accepted>,
      sid: Sid)
  {
    forall a | !Knows(log, sid, a) :: (a in before <==> a in after) && (a in before ==> after[a] == before[a])
  }

  /** The sessions other than `sid` keep their tables. */
  lemma OthersKeep(st: Relay, after: map<Address, Mapping>, sid: Sid, t: Sid, log: set<Accepted>)
    requires Exact(st, log) && OneUse(log) && t in st.sessions && t != sid
    requires SameElsewhere(st.mappings, after, log, sid)
    ensures OwnTable(after, st.sessions[t])
  {
    hide Inv, TableSafe, OwnTable, SessionLogged, OneUse, Knows;
    forall a | Knows(log, t, a) ensures !Knows(log, sid, a) {
      if Knows(log, sid, a) {
        OneSession(log, sid, t, a);
      }
    }
    SameAtKeeps(st.mappings, after, st.sessions[t], t, log);
  }

  lemma StreamerIsKnown(s: Session, sid: Sid, log: set<Accepted>)
    requires SessionLogged(s, sid, log)
    ensures forall a | a in AddrsOf(s.streamer) :: Knows(log, sid, a)
  {
  }

  // ---------------------------------------------------------------- a spectator is removed

  lemma RemovingElsewhere(mappings: map<Address, Mapping>, s: Session, sid: Sid, gone: set<Address>, log: set<Accepted>)
    requires SessionLogged(s, sid, log)
    ensures SameElsewhere(mappings, RemoveTargets(mappings, s.streamer, gone), log, sid)
  {
    StreamerIsKnown(s, sid, log);
    hide SessionLogged, Knows, AddrsOf;
  }

  lemma ExactFor(st: Relay, sid: Sid, log: set<Accepted>)
    requires Exact(st, log) && sid in st.sessions
    ensures var s := st.sessions[sid];
            && SessionLogged(s, sid, log) && OwnTable(st.mappings, s) && Grouped(s.spectators)
            && forall a | a in s.addresses :: Knows(log, sid, a)
  {
    hide SessionLogged, OwnTable, Grouped, Knows, TableSafe;
  }

  /** Taking an entry off a session and its addresses off the streamer's targets */
  lemma RemovingOne(mappings: map<Address, Mapping>, s: Session, sid: Sid, i: nat, log: set<Accepted>)
    requires OneUse(log) && SessionLogged(s, sid, log) && OwnTable(mappings, s) && Grouped(s.spectators)
               && i < |s.spectators|
    ensures OwnTable(RemoveTargets(mappings, s.streamer, s.spectators[i].Addresses()), RemoveSpectatorAt(s, i))
  {
    hide *;
    var s', gone := RemoveSpectatorAt(s, i), s.spectators[i].Addresses();
    RemovedSession(s, i);
    if s.IsReady() {
      RemovedLeaves(s, i);
      OwnPeers(s, sid, log);
      NotTheViewers(s, i);
      RemovedTargets(mappings, s.streamer, gone);
      LeavingKeepsOwn(mappings, RemoveTargets(mappings, s.streamer, gone), s, s', gone);
    } else {
      SameReadiness(s, s');
      NotReady(RemoveTargets(mappings, s.streamer, gone), s');
    }
  }

  lemma RemovedSession(s: Session, i: nat)
    requires i < |s.spectators|
    ensures SamePorts(s, RemoveSpectatorAt(s, i)) && RemoveSpectatorAt(s, i).addresses <= s.addresses
  {
  }

  lemma RemovedTargets(mappings: map<Address, Mapping>, streamer: Ports, gone: set<Address>)
    ensures var after := RemoveTargets(mappings, streamer, gone);
            && after.Keys == mappings.Keys
            && forall a | a in mappings :: after[a].targets == if a in AddrsOf(streamer)
                then mappings[a].targets - gone else mappings[a].targets
  {
  }

  lemma NotReady(mappings: map<Address, Mapping>, s: Session)
    requires !s.IsReady()
    ensures OwnTable(mappings, s)
  {
  }

  lemma SameReadiness(s: Session, s': Session)
    requires SamePorts(s, s')
    ensures s'.IsReady() == s.IsReady()
  {
  }

  lemma RemovingShape(st: Relay, addr: Address) returns (sid: Sid, i: nat)
    requires RemoveSpectator(st, addr) != st
    ensures sid in st.sessions && i < |st.sessions[sid].spectators|
    ensures var s, after := st.sessions[sid], RemoveSpectator(st, addr);
            && after.sessions == st.sessions[sid := RemoveSpectatorAt(s, i)]
            && after.mappings == RemoveTargets(st.mappings, s.streamer, s.spectators[i].Addresses())
            && RemoveSpectatorAt(s, i).addresses <= s.addresses
  {
    sid := FirstSpectated(st.sessions, st.order, addr).value;
    i := FindByAddress(st.sessions[sid].spectators, addr).value;
    hide RemoveTargets;
  }

  lemma RemovingKeepsExact(st: Relay, addr: Address, log: set<Accepted>)
    requires Exact(st, log) && OneUse(log)
    ensures Exact(RemoveSpectator(st, addr), log)
  {
    hide *;
    ExactParts(st, log);
    RemoveSpectatorKeeps(st, addr);
    RemoveSpectatorIsSafe(st, addr, log);
    var after := RemoveSpectator(st, addr);
    if after != st {
      var sid, i := RemovingShape(st, addr);
      ExactFor(st, sid, log);
      var s := st.sessions[sid];
      RemovingOne(st.mappings, s, sid, i, log);
      RemovingElsewhere(st.mappings, s, sid, s.spectators[i].Addresses(), log);
      forall t | t in after.sessions
        ensures OwnTable(after.mappings, after.sessions[t]) && forall a | a in after.sessions[t].addresses ::
                  Knows(log, t, a)
      {
        if t != sid {
          ExactFor(st, t, log);
          OthersKeep(st, after.mappings, sid, t, log);
        }
      }
      MakesExact(after, log);
    }
  }

  lemma MakesExact(st: Relay, log: set<Accepted>)
    requires Inv(st) && Safe(st, log)
    requires forall t | t in st.sessions ::
               OwnTable(st.mappings, st.sessions[t]) && forall a | a in st.sessions[t].addresses :: Knows(log, t, a)
    ensures Exact(st, log)
  {
    hide Inv, Safe, OwnTable, Knows;
  }

  // ---------------------------------------------------------------- a streamer or viewer registers

  lemma AttachingElsewhere(mappings: map<Address, Mapping>, s: Session, sid: Sid, addrs: set<Address>, now: Time,
      log: set<Accepted>)
    requires SessionLogged(s, sid, log)
    ensures SameElsewhere(mappings, AttachSpectators(mappings, s, addrs, now), log, sid)
  {
    StreamerIsKnown(s, sid, log);
    assert Full(s.streamer) ==>
        s.streamer[Video].addr in AddrsOf(s.streamer) && s.streamer[Control].addr in AddrsOf(s.streamer);
    hide SessionLogged, Knows, AddrsOf, FoundTargets;
  }

  lemma UpdatingElsewhere(st: Relay, sid: Sid, now: Time, log: set<Accepted>)
    requires sid in st.sessions && st.sessions[sid].IsReady() && SessionLogged(st.sessions[sid], sid, log)
    requires forall a | a in st.sessions[sid].addresses :: Knows(log, sid, a)
    ensures SameElsewhere(st.mappings, UpdateMappings(st, sid, now).mappings, log, sid)
  {
    var s := st.sessions[sid];
    PeersAreKnown(s, sid, log);
    assert NewMappings(s, now).Keys == PeerAddresses(s);
    hide SessionLogged, Knows, NewMappings, PeerAddresses, Overwritten, Without;
    assert KeepTimestamps(st.mappings, NewMappings(s, now)).Keys == PeerAddresses(s);
  }

  lemma PeersAreKnown(s: Session, sid: Sid, log: set<Accepted>)
    requires s.IsReady() && SessionLogged(s, sid, log)
    ensures forall a | a in PeerAddresses(s) :: Knows(log, sid, a)
  {
    assert Accepted(sid, Streamer, Video, s.streamer[Video].addr) in log;
    assert Accepted(sid, Streamer, Control, s.streamer[Control].addr) in log;
    assert Accepted(sid, Viewer, Video, s.viewer[Video].addr) in log;
    assert Accepted(sid, Viewer, Control, s.viewer[Control].addr) in log;
  }

  lemma ElsewhereTwice(a: map<Address, Mapping>, b: map<Address, Mapping>, c: map<Address, Mapping>,
      log: set<Accepted>, sid: Sid)
    requires SameElsewhere(a, b, log, sid) && SameElsewhere(b, c, log, sid)
    ensures SameElsewhere(a, c, log, sid)
  {
    hide Knows;
  }

  lemma RecordedPeer(st: Relay, sid: Sid, role: Role, port: PortType, addr: Address, now: Time, log: set<Accepted>)
    requires Exact(st, log) && role != Spectator && Accepted(sid, role, port, addr) in log
    ensures var st2 := RecordPeer(st, sid, role, port, addr, now);
            && sid in st2.sessions && SessionLogged(st2.sessions[sid], sid, log)
            && st2.mappings == st.mappings
            && (forall t | t in st2.sessions && t != sid :: t in st.sessions && st2.sessions[t] == st.sessions[t])
            && (forall a | a in st2.sessions[sid].addresses :: Knows(log, sid, a))
  {
    if sid in st.sessions {
      ExactFor(st, sid, log);
    }
    assert Knows(log, sid, addr);
    hide Exact, Knows, EntriesLogged;
    assert sid !in st.sessions ==> EntriesLogged([], sid, log) by { NoEntries(sid, log); }
  }

  lemma NoEntries(sid: Sid, log: set<Accepted>)
    ensures EntriesLogged([], sid, log)
  {
  }

  lemma RegisteringElsewhere(st: Relay, sid: Sid, role: Role, port: PortType, addr: Address, now: Time,
      log: set<Accepted>)
    requires Exact(st, log) && role != Spectator && Accepted(sid, role, port, addr) in log
    ensures var after := RegisterPeer(st, sid, role, port, addr, now);
            && SameElsewhere(st.mappings, after.mappings, log, sid)
            && sid in after.sessions && (forall a | a in after.sessions[sid].addresses :: Knows(log, sid, a))
            && (forall t | t in after.sessions && t != sid :: t in st.sessions && after.sessions[t] == st.sessions[t])
  {
    RecordedPeer(st, sid, role, port, addr, now, log);
    hide Exact, SessionLogged, Knows, SameElsewhere, RecordPeer, AttachSpectators, CompleteAddresses, UpdateMappings;
    var st2 := RecordPeer(st, sid, role, port, addr, now);
    var s := st2.sessions[sid];
    if s.IsReady() {
      var st3 := UpdateMappings(st2, sid, now);
      UpdatingElsewhere(st2, sid, now, log);
      AttachingElsewhere(st3.mappings, s, sid, CompleteAddresses(s), now, log);
      ElsewhereTwice(st.mappings, st3.mappings, AttachSpectators(st3.mappings, s, CompleteAddresses(s), now), log, sid);
      UpdatingSessions(st2, sid, now);
    } else {
      Unchanged(st.mappings, log, sid);
    }
  }

  lemma UpdatingSessions(st: Relay, sid: Sid, now: Time)
    requires sid in st.sessions && st.sessions[sid].IsReady()
    ensures var after := UpdateMappings(st, sid, now).sessions;
            && sid in after && (forall t | t in after :: t in st.sessions && after[t] == st.sessions[t])
  {
    hide NewMappings, KeepTimestamps, Without;
  }

  lemma Unchanged(mappings: map<Address, Mapping>, log: set<Accepted>, sid: Sid)
    ensures SameElsewhere(mappings, mappings, log, sid)
  {
  }

  /** The session that registers has the exact table as soon as it is ready. */
  lemma RegisteringOwn(st: Relay, sid: Sid, role: Role, port: PortType, addr: Address, now: Time, log: set<Accepted>)
    requires Exact(st, log) && OneUse(log) && role != Spectator && Accepted(sid, role, port, addr) in log
    ensures var after := RegisterPeer(st, sid, role, port, addr, now);
            sid in after.sessions ==> OwnTable(after.mappings, after.sessions[sid])
  {
    var after := RegisterPeer(st, sid, role, port, addr, now);
    RegisterPeerIsSafe(st, sid, role, port, addr, now, log);
    RegisteringIsExact(st, sid, role, port, addr, now);
    hide RegisterPeer, OneUse, Inv, TableSafe, SessionLogged, ViewerDoesNotSpectate;
    if sid in after.sessions && after.sessions[sid].IsReady() {
      OwnPeers(after.sessions[sid], sid, log);
      StaysReady(after, sid);
    }
  }

  lemma RegisteringKeepsExact(st: Relay, sid: Sid, role: Role, port: PortType, addr: Address, now: Time,
      log: set<Accepted>)
    requires Exact(st, log) && OneUse(log) && role != Spectator && Accepted(sid, role, port, addr) in log
    ensures Exact(RegisterPeer(st, sid, role, port, addr, now), log)
  {
    hide *;
    ExactParts(st, log);
    RegisterPeerKeeps(st, sid, role, port, addr, now);
    RegisterPeerIsSafe(st, sid, role, port, addr, now, log);
    RegisteringElsewhere(st, sid, role, port, addr, now, log);
    RegisteringOwn(st, sid, role, port, addr, now, log);
    var after := RegisterPeer(st, sid, role, port, addr, now);
    forall t | t in after.sessions
      ensures OwnTable(after.mappings, after.sessions[t]) && forall a | a in after.sessions[t].addresses ::
                Knows(log, t, a)
    {
      if t != sid {
        ExactFor(st, t, log);
        OthersKeep(st, after.mappings, sid, t, log);
      }
    }
    MakesExact(after, log);
  }

  // ---------------------------------------------------------------- a spectator registers

  /** What a spectator's announcement leaves as it was */
  lemma JoiningElsewhere(st: Relay, sid: Sid, port: PortType, addr: Address, now: Time, log: set<Accepted>)
    requires Exact(st, log) && Accepted(sid, Spectator, port, addr) in log
    ensures var after := RegisterSpectator(st, sid, port, addr, now);
            && SameElsewhere(st.mappings, after.mappings, log, sid)
            && (forall t | t in after.sessions && t != sid :: t in st.sessions && after.sessions[t] == st.sessions[t])
  {
    assert Safe(st, log) && AllExact(st) by { hide Inv, Safe, Recorded, AllExact; }
    JoiningIsLogged(st, sid, port, addr, now, log);
    hide Exact, SessionLogged, Knows, SameElsewhere, AttachSpectators, RemoveTargets, SpectatorJoins, IndexEntry,
        OwnTable, Safe;
    var (s, gone) := SpectatorJoins(st, sid, port, addr, now);
    var mappings := RemoveTargets(st.mappings, s.streamer, gone);
    RemovingElsewhere(st.mappings, s, sid, gone, log);
    AttachingElsewhere(mappings, s, sid, {addr}, now, log);
    ElsewhereTwice(st.mappings, mappings, AttachSpectators(mappings, s, {addr}, now), log, sid);
  }

  /** The session a spectator joins: same peers, at most the new address more, and new keys only for the streamer */
  lemma JoinedSession(st: Relay, sid: Sid, port: PortType, addr: Address, now: Time)
    ensures var after := RegisterSpectator(st, sid, port, addr, now);
            && sid in after.sessions
            && var s' := after.sessions[sid];
            && after.mappings.Keys <= st.mappings.Keys + AddrsOf(s'.streamer)
            && if sid in st.sessions then
                 SamePorts(st.sessions[sid], s') && s'.addresses <= st.sessions[sid].addresses + {addr}
               else
                 !s'.IsReady() && s'.addresses <= {addr}
  {
    hide SpectatorSlot, IndexEntry, FoundTargets, UsesIp;
    var after := RegisterSpectator(st, sid, port, addr, now);
    var s' := after.sessions[sid];
    assert Full(s'.streamer) ==>
        s'.streamer[Video].addr in AddrsOf(s'.streamer) && s'.streamer[Control].addr in AddrsOf(s'.streamer);
  }

  lemma SpectatorIsNoKey(mappings: map<Address, Mapping>, log: set<Accepted>, sid: Sid, port: PortType, addr: Address)
    requires TableSafe(mappings, log) && OneUse(log) && Accepted(sid, Spectator, port, addr) in log
    ensures addr !in mappings
  {
    if addr in mappings {
      var s, p :| Accepted(s, Streamer, p, addr) in log || Accepted(s, Viewer, p, addr) in log;
      assert false;
    }
  }

  lemma OwnAfterJoining(before: map<Address, Mapping>, after: map<Address, Mapping>, s: Session, s': Session,
      addr: Address)
    requires OwnTable(before, s) && s.IsReady() && SamePorts(s, s') && s'.addresses <= s.addresses + {addr}
    requires after.Keys <= before.Keys + AddrsOf(s'.streamer) && addr !in after && TargetsExact(after, s')
    ensures OwnTable(after, s')
  {
    TwoAddresses(s'.streamer);
    hide TargetsExact, AddrsOf;
    assert PeerAddresses(s') == PeerAddresses(s);
  }

  lemma JoiningOwn(st: Relay, sid: Sid, port: PortType, addr: Address, now: Time, log: set<Accepted>)
    requires Exact(st, log) && OneUse(log) && Accepted(sid, Spectator, port, addr) in log
    ensures var after := RegisterSpectator(st, sid, port, addr, now);
            sid in after.sessions && OwnTable(after.mappings, after.sessions[sid])
  {
    hide *;
    ExactParts(st, log);
    var after := RegisterSpectator(st, sid, port, addr, now);
    JoinedSession(st, sid, port, addr, now);
    var s' := after.sessions[sid];
    if sid in st.sessions && st.sessions[sid].IsReady() {
      RegisterSpectatorIsSafe(st, sid, port, addr, now, log);
      SafeTable(after, log);
      SpectatorIsNoKey(after.mappings, log, sid, port, addr);
      ExactFor(st, sid, log);
      OwnPeers(st.sessions[sid], sid, log);
      OwnIsExact(st.mappings, st.sessions[sid]);
      JoiningKeepsTargetsExact(st, sid, port, addr, now);
      SameReadiness(st.sessions[sid], s');
      OwnAfterJoining(st.mappings, after.mappings, st.sessions[sid], s', addr);
    } else {
      if sid in st.sessions {
        SameReadiness(st.sessions[sid], s');
      }
      NotReady(after.mappings, s');
    }
  }

  lemma OwnIsExact(mappings: map<Address, Mapping>, s: Session)
    requires OwnTable(mappings, s) && s.IsReady()
    ensures TargetsExact(mappings, s)
  {
  }

  lemma SafeTable(st: Relay, log: set<Accepted>)
    requires Safe(st, log)
    ensures TableSafe(st.mappings, log)
  {
  }

  lemma JoiningRecords(st: Relay, sid: Sid, port: PortType, addr: Address, now: Time, log: set<Accepted>)
    requires Exact(st, log) && Accepted(sid, Spectator, port, addr) in log
    ensures var after := RegisterSpectator(st, sid, port, addr, now);
            sid in after.sessions && forall a | a in after.sessions[sid].addresses :: Knows(log, sid, a)
  {
    JoinedSession(st, sid, port, addr, now);
    assert Knows(log, sid, addr);
    if sid in st.sessions {
      ExactFor(st, sid, log);
    }
    hide RegisterSpectator, Exact, Knows, SessionLogged, OwnTable, Grouped;
  }

  lemma JoiningKeepsExact(st: Relay, sid: Sid, port: PortType, addr: Address, now: Time, log: set<Accepted>)
    requires Exact(st, log) && OneUse(log) && Accepted(sid, Spectator, port, addr) in log
    ensures Exact(RegisterSpectator(st, sid, port, addr, now), log)
  {
    hide *;
    ExactParts(st, log);
    RegisterSpectatorKeeps(st, sid, port, addr, now);
    RegisterSpectatorIsSafe(st, sid, port, addr, now, log);
    JoiningElsewhere(st, sid, port, addr, now, log);
    JoiningOwn(st, sid, port, addr, now, log);
    JoiningRecords(st, sid, port, addr, now, log);
    var after := RegisterSpectator(st, sid, port, addr, now);
    forall t | t in after.sessions
      ensures OwnTable(after.mappings, after.sessions[t]) && forall a | a in after.sessions[t].addresses ::
                Knows(log, t, a)
    {
      if t != sid {
        ExactFor(st, t, log);
        OthersKeep(st, after.mappings, sid, t, log);
      }
    }
    MakesExact(after, log);
  }

  // ---------------------------------------------------------------- a cleanup pass

  /** Every entry that stays was there before and is not silent. */
  lemma {:induction false} FilteredFrom(tcp: map<Address, nat>, entries: seq<Entry>, now: Time, alive: set<nat>,
      k: nat) returns (j: nat)
    requires k < |Filtered(tcp, entries, now, alive)|
    ensures j < |entries| && Filtered(tcp, entries, now, alive)[k].ports == entries[j].ports
              && !Silent(tcp, entries[j], now, alive)
  {
    hide Silent;
    var n := |entries| - 1;
    var before := Filtered(tcp, entries[..n], now, alive);
    if k < |before| {
      j := FilteredFrom(tcp, entries[..n], now, alive, k);
    } else {
      j := n;
    }
  }

  /** Every entry that is not silent stays. */
  lemma {:induction false} FilteredKeeps(tcp: map<Address, nat>, entries: seq<Entry>, now: Time, alive: set<nat>,
      j: nat)
    requires j < |entries| && !Silent(tcp, entries[j], now, alive)
    ensures HasPorts(Filtered(tcp, entries, now, alive), entries[j].ports)
  {
    hide Silent;
    var n := |entries| - 1;
    var before := Filtered(tcp, entries[..n], now, alive);
    if j < n {
      FilteredKeeps(tcp, entries[..n], now, alive, j);
      var k :| 0 <= k < |before| && before[k].ports == entries[j].ports;
      assert Filtered(tcp, entries, now, alive)[k] == before[k];
    } else {
      assert Filtered(tcp, entries, now, alive)[|before|].ports == entries[j].ports;
    }
  }

  lemma FilteredLeaves(tcp: map<Address, nat>, s: Session, now: Time, alive: set<nat>)
    requires Grouped(s.spectators)
    ensures Leaves(s.spectators, Filtered(tcp, s.spectators, now, alive), SilentAddresses(tcp, s, now, alive))
  {
    hide Silent, Filtered, Grouped;
    var before, gone := s.spectators, SilentAddresses(tcp, s, now, alive);
    var after := Filtered(tcp, before, now, alive);
    forall k | 0 <= k < |after| ensures HasPorts(before, after[k].ports) && AddrsOf(after[k].ports) !! gone {
      var j := FilteredFrom(tcp, before, now, alive, k);
      forall a | a in before[j].Addresses() ensures a !in gone {
        LookupIsUnambiguous(before, j, a);
      }
    }
    forall j | 0 <= j < |before| ensures before[j].Addresses() <= gone || HasPorts(after, before[j].ports) {
      if !Silent(tcp, before[j], now, alive) {
        FilteredKeeps(tcp, before, now, alive, j);
      }
    }
  }

  /** A session that is ready after the pass has lost no role. */
  ghost predicate Busy(st: Relay, s: Session, now: Time, timeout: Time) {
    !Idle(st.mappings, s, Streamer, now, timeout) && !Idle(st.mappings, s, Viewer, now, timeout)
  }

  lemma ReadyWasBusy(st: Relay, s: Session, s': Session, now: Time, timeout: Time, alive: set<nat>)
    requires SessionCleaned(st, s, s', now, timeout, alive) && s'.IsReady()
    ensures Busy(st, s, now, timeout) && SamePorts(s, s') && s.IsReady()
  {
    hide Idle, Filtered;
  }

  /** Which peer of the session an address is */
  lemma PeerOf(s: Session, t: Sid, log: set<Accepted>, a: Address) returns (role: Role, p: PortType)
    requires s.IsReady() && SessionLogged(s, t, log) && a in PeerAddresses(s)
    ensures role != Spectator && Accepted(t, role, p, a) in log && a in AddrsOf(PortsOf(s, role))
  {
    if a == s.streamer[Video].addr { role, p := Streamer, Video; }
    else if a == s.streamer[Control].addr { role, p := Streamer, Control; }
    else if a == s.viewer[Video].addr { role, p := Viewer, Video; }
    else { role, p := Viewer, Control; }
  }

  lemma LoggedPort(sessions: map<Sid, Session>, sid: Sid, role: Role, log: set<Accepted>, a: Address)
      returns (p: PortType)
    requires AllLogged(sessions, log) && sid in sessions && a in AddrsOf(PortsOf(sessions[sid], role))
    ensures Accepted(sid, role, p, a) in log
  {
    assert SessionLogged(sessions[sid], sid, log);
    p :| p in PortsOf(sessions[sid], role) && PortsOf(sessions[sid], role)[p].addr == a;
  }

  lemma PeersStay(st: Relay, t: Sid, log: set<Accepted>, a: Address, now: Time, timeout: Time)
    requires OneUse(log) && AllLogged(st.sessions, log) && t in st.sessions && st.sessions[t].IsReady()
    requires Busy(st, st.sessions[t], now, timeout) && a in PeerAddresses(st.sessions[t])
    ensures !Expires(st.mappings, st.sessions, a, now, timeout)
  {
    hide Idle, AddrsOf, SessionLogged;
    assert SessionLogged(st.sessions[t], t, log);
    var role, p := PeerOf(st.sessions[t], t, log, a);
    if Expires(st.mappings, st.sessions, a, now, timeout) {
      var sid, r :| sid in st.sessions && Idle(st.mappings, st.sessions[sid], r, now, timeout)
          && a in AddrsOf(PortsOf(st.sessions[sid], r));
      var q := LoggedPort(st.sessions, sid, r, log, a);
      assert false;
    }
  }

  lemma DroppedAt(st: Relay, t: Sid, log: set<Accepted>, a: Address, b: Address, now: Time, timeout: Time,
      alive: set<nat>)
    requires OneUse(log) && AllLogged(st.sessions, log) && t in st.sessions && st.sessions[t].IsReady()
    requires Busy(st, st.sessions[t], now, timeout) && a in PeerAddresses(st.sessions[t])
    ensures Dropped(st, a, b, now, timeout, alive) <==>
              a in AddrsOf(st.sessions[t].streamer) && b in SilentAddresses(st.tcp, st.sessions[t], now, alive)
  {
    hide Idle, SessionLogged, SilentAddresses;
    var s := st.sessions[t];
    assert SessionLogged(s, t, log);
    var role, p := PeerOf(s, t, log, a);
    if Dropped(st, a, b, now, timeout, alive) {
      var sid :| sid in st.sessions && Survives(st.mappings, st.sessions[sid], now, timeout)
        && a in AddrsOf(Remaining(st.mappings, st.sessions[sid], Streamer, now, timeout))
        && b in SilentAddresses(st.tcp, st.sessions[sid], now, alive);
      assert a in AddrsOf(PortsOf(st.sessions[sid], Streamer));
      var q := LoggedPort(st.sessions, sid, Streamer, log, a);
      assert Accepted(t, role, p, a) == Accepted(sid, Streamer, q, a);
    }
    if a in AddrsOf(s.streamer) && b in SilentAddresses(st.tcp, s, now, alive) {
      assert Video in s.streamer && Survives(st.mappings, s, now, timeout);
    }
  }

  lemma SilentSpectate(tcp: map<Address, nat>, s: Session, now: Time, alive: set<nat>)
    requires s.IsReady() && ViewerDoesNotSpectate(s)
    ensures s.viewer[Video].addr !in SilentAddresses(tcp, s, now, alive)
    ensures s.viewer[Control].addr !in SilentAddresses(tcp, s, now, alive)
  {
    hide Silent;
    forall e | e in s.spectators ensures s.viewer[Video].addr !in e.Addresses()
        && s.viewer[Control].addr !in e.Addresses() {
      var i :| 0 <= i < |s.spectators| && s.spectators[i] == e;
      NotTheViewers(s, i);
    }
  }

  /** One peer address of a session that stays ready */
  lemma PeerAfterCleanup(st: Relay, after: map<Address, Mapping>, t: Sid, log: set<Accepted>, a: Address, now: Time,
      timeout: Time, alive: set<nat>)
    requires OneUse(log) && AllLogged(st.sessions, log) && t in st.sessions && st.sessions[t].IsReady()
    requires Busy(st, st.sessions[t], now, timeout) && a in PeerAddresses(st.sessions[t])
    requires MappingCleaned(st, after, a, now, timeout, alive)
    ensures a in after <==> a in st.mappings
    ensures a in after && a in st.mappings ==>
              after[a].targets == if a in AddrsOf(st.sessions[t].streamer)
                                  then st.mappings[a].targets - SilentAddresses(st.tcp, st.sessions[t], now, alive)
                                  else st.mappings[a].targets
  {
    PeersStay(st, t, log, a, now, timeout);
    hide AddrsOf, SilentAddresses, Dropped, Expires, OneUse, AllLogged, Busy, PeerAddresses;
    if a in after && a in st.mappings {
      forall b ensures b in after[a].targets <==>
                         b in st.mappings[a].targets
                             && !(a in AddrsOf(st.sessions[t].streamer)
                             && b in SilentAddresses(st.tcp, st.sessions[t], now, alive))
      {
        DroppedAt(st, t, log, a, b, now, timeout, alive);
      }
    }
  }

  lemma CleaningOwn(st: Relay, after: map<Address, Mapping>, s': Session, t: Sid, log: set<Accepted>, now: Time,
      timeout: Time, alive: set<nat>)
    requires OneUse(log) && AllLogged(st.sessions, log) && t in st.sessions && SessionLogged(st.sessions[t], t, log)
    requires OwnTable(st.mappings, st.sessions[t]) && Grouped(st.sessions[t].spectators)
    requires SessionCleaned(st, st.sessions[t], s', now, timeout, alive) && s'.addresses <= st.sessions[t].addresses
    requires forall a :: MappingCleaned(st, after, a, now, timeout, alive)
    ensures OwnTable(after, s')
  {
    hide *;
    var s := st.sessions[t];
    if s'.IsReady() {
      ReadyWasBusy(st, s, s', now, timeout, alive);
      OwnPeers(s, t, log);
      SilentSpectate(st.tcp, s, now, alive);
      FilteredLeaves(st.tcp, s, now, alive);
      SpectatorsCleaned(st, s, s', now, timeout, alive);
      forall a | a in PeerAddresses(s)
        ensures a in after <==> a in st.mappings
        ensures a in after && a in st.mappings ==>
                  after[a].targets == if a in AddrsOf(s.streamer)
                      then st.mappings[a].targets - SilentAddresses(st.tcp, s, now, alive)
                                      else st.mappings[a].targets
      {
        PeerAfterCleanup(st, after, t, log, a, now, timeout, alive);
      }
      forall a | a in s.addresses ensures a in after <==> a in st.mappings {
        NothingNew(st, after, a, now, timeout, alive);
        OwnKeys(st.mappings, s);
      }
      LeavingKeepsOwn(st.mappings, after, s, s', SilentAddresses(st.tcp, s, now, alive));
    } else {
      NotReady(after, s');
    }
  }

  lemma SpectatorsCleaned(st: Relay, s: Session, s': Session, now: Time, timeout: Time, alive: set<nat>)
    requires SessionCleaned(st, s, s', now, timeout, alive)
    ensures s'.spectators == Filtered(st.tcp, s.spectators, now, alive)
  {
  }

  lemma NothingNew(st: Relay, after: map<Address, Mapping>, a: Address, now: Time, timeout: Time, alive: set<nat>)
    requires MappingCleaned(st, after, a, now, timeout, alive)
    ensures a in after ==> a in st.mappings
  {
  }

  lemma OwnKeys(mappings: map<Address, Mapping>, s: Session)
    requires OwnTable(mappings, s) && s.IsReady()
    ensures forall a | a in s.addresses && a in mappings :: a in PeerAddresses(s)
  {
  }

  /** Only tcp targets differ: the same sessions and the same table */
  lemma SameTable(st: Relay, after: Relay, log: set<Accepted>)
    requires Exact(st, log) && after.sessions == st.sessions && after.mappings == st.mappings && after.order == st.order
    ensures Exact(after, log)
  {
    hide OwnTable, SessionLogged, Knows, Grouped;
  }

  lemma CleanedInto(st: Relay, after: Relay, t: Sid, now: Time, timeout: Time, alive: set<nat>)
    requires ExactlyCleaned(st, after, now, timeout, alive) && t in after.sessions
    ensures t in st.sessions && SessionCleaned(st, st.sessions[t], after.sessions[t], now, timeout, alive)
    ensures forall a :: MappingCleaned(st, after.mappings, a, now, timeout, alive)
  {
    hide SessionCleaned, MappingCleaned, Survives;
  }

  lemma ForgetsOnly(st: Relay, t: Sid, now: Time, timeout: Time, alive: set<nat>)
    requires t in st.sessions && t in Cleanup(st, now, timeout, alive).sessions
    ensures Cleanup(st, now, timeout, alive).sessions[t].addresses <= st.sessions[t].addresses
  {
    AddressesAfterCleanup(st, t, now, timeout, alive);
    hide Cleanup, RoleAddresses, SilentAddresses;
  }

  lemma CleaningKeepsExact(st: Relay, now: Time, timeout: Time, alive: set<nat>, log: set<Accepted>)
    requires Exact(st, log) && OneUse(log)
    ensures Exact(Cleanup(st, now, timeout, alive), log)
  {
    hide *;
    ExactParts(st, log);
    var tcp, after := DropDeadTargets(st, alive), Cleanup(st, now, timeout, alive);
    CleanupKeeps(st, now, timeout, alive);
    CleanupIsSafe(st, now, timeout, alive, log);
    CleanupExactly(st, now, timeout, alive);
    OnlyTargetsDropped(st, alive);
    forall t | t in after.sessions
      ensures OwnTable(after.mappings, after.sessions[t]) && forall a | a in after.sessions[t].addresses ::
                Knows(log, t, a)
    {
      CleanedInto(tcp, after, t, now, timeout, alive);
      ExactFor(st, t, log);
      ForgetsOnly(st, t, now, timeout, alive);
      CleaningOwn(tcp, after.mappings, after.sessions[t], t, log, now, timeout, alive);
    }
    MakesExact(after, log);
  }

  // ---------------------------------------------------------------- every step

  lemma TouchingKeepsExact(st: Relay, addr: Address, now: Time, log: set<Accepted>)
    requires Exact(st, log)
    ensures Exact(Heartbeat(st, addr, now), log)
  {
    ExactParts(st, log);
    HeartbeatKeeps(st, addr, now);
    HeartbeatIsSafe(st, addr, now, log);
    var after := Heartbeat(st, addr, now);
    forall t | t in after.sessions
      ensures OwnTable(after.mappings, after.sessions[t]) && forall a | a in after.sessions[t].addresses ::
                Knows(log, t, a)
    {
      ExactFor(st, t, log);
      hide Exact, Inv, Safe, OwnTable, Knows, SessionLogged, Grouped;
      LikeBefore(st.mappings, st.sessions[t], after.sessions[t]);
    }
    MakesExact(after, log);
  }

  lemma ForwardingKeepsExact(st: Relay, addr: Address, now: Time, log: set<Accepted>)
    requires Exact(st, log)
    ensures Exact(Forward(st, addr, now), log)
  {
    hide *;
    ExactParts(st, log);
    var after := Forward(st, addr, now);
    ForwardingOnly(st, addr, now);
    SameSessionsKeep(st, after);
    ForwardingIsSafe(st, addr, now, log);
    forall t | t in after.sessions
      ensures OwnTable(after.mappings, after.sessions[t]) && forall a | a in after.sessions[t].addresses ::
                Knows(log, t, a)
    {
      ExactFor(st, t, log);
      SameTargetsOwn(st.mappings, after.mappings, st.sessions[t]);
    }
    MakesExact(after, log);
  }

  /** A packet changes one time stamp. */
  lemma ForwardingOnly(st: Relay, addr: Address, now: Time)
    ensures var after := Forward(st, addr, now);
            && after.sessions == st.sessions && after.order == st.order && after.mappings.Keys == st.mappings.Keys
            && forall a | a in st.mappings :: after.mappings[a].targets == st.mappings[a].targets
  {
  }

  lemma SameTargetsOwn(before: map<Address, Mapping>, after: map<Address, Mapping>, s: Session)
    requires OwnTable(before, s) && after.Keys == before.Keys
    requires forall a | a in before :: after[a].targets == before[a].targets
    ensures OwnTable(after, s)
  {
    hide Audience;
  }

  lemma ForwardingIsSafe(st: Relay, addr: Address, now: Time, log: set<Accepted>)
    requires Safe(st, log)
    ensures Safe(Forward(st, addr, now), log)
  {
    hide AllLogged, MaySend, Linked;
  }

  lemma MoreLogged(st: Relay, log: set<Accepted>, log': set<Accepted>)
    requires Exact(st, log) && log <= log'
    ensures Exact(st, log')
  {
    LogGrows(st, log, log');
    forall sid, a | sid in st.sessions && a in st.sessions[sid].addresses ensures Knows(log', sid, a) {
      var role, port :| Accepted(sid, role, port, a) in log;
      assert Accepted(sid, role, port, a) in log';
    }
    hide Inv, Safe, AllExact, Knows;
  }

  lemma AnnouncingKeepsExact(st: Relay, ev: Event, log: set<Accepted>)
    requires Exact(st, log) && ev.Announced? && OneUse(log) && LogOf(ev) <= log
    ensures Exact(Step(st, ev), log)
  {
    hide Exact, OneUse, RegisterPeer, RegisterSpectator, RemoveSpectator, ParseRole, ParsePort;
    RemovingKeepsExact(st, ev.addr, log);
    var removed := RemoveSpectator(st, ev.addr);
    match Accepts(ev.role, ev.port, ev.sid, ev.store) {
      case None =>
      case Some(Target(actual, Spectator, p)) => JoiningKeepsExact(st, actual, p, ev.addr, ev.now, log);
      case Some(Target(actual, r, p)) => RegisteringKeepsExact(removed, actual, r, p, ev.addr, ev.now, log);
    }
  }

  lemma StepKeepsExact(st: Relay, ev: Event, log: set<Accepted>)
    requires Exact(st, log) && OneUse(log) && LogOf(ev) <= log
    ensures Exact(Step(st, ev), log)
  {
    hide Exact, OneUse, Announce, Heartbeat, Cleanup, Forward, LogOf;
    match ev
    case Announced(role, port, sid, addr, store, now) => AnnouncingKeepsExact(st, ev, log);
    case TcpConnected(addr, target) => SameTable(st, Step(st, ev), log);
    case DataPacket(addr, now) => ForwardingKeepsExact(st, addr, now, log);
    case StrayPacket(addr, now) => TouchingKeepsExact(st, addr, now, log);
    case CleanupPass(now, timeout, alive) => CleaningKeepsExact(st, now, timeout, alive, log);
  }

  // ---------------------------------------------------------------- runs

  lemma FewerUses(log: set<Accepted>, log': set<Accepted>)
    requires log <= log' && OneUse(log')
    ensures OneUse(log)
  {
  }

  lemma {:induction false} AlwaysExact(events: seq<Event>)
    requires OneUse(Log(events))
    ensures Exact(Run(events), Log(events))
  {
    if events != [] {
      var n := |events| - 1;
      hide Exact, OneUse, Step, LogOf;
      FewerUses(Log(events[..n]), Log(events));
      AlwaysExact(events[..n]);
      MoreLogged(Run(events[..n]), Log(events[..n]), Log(events));
      StepKeepsExact(Run(events[..n]), events[n], Log(events));
    } else {
      assert Exact(START, {});
    }
  }

  /**
   * In every run whose accepted addresses each serve one session, role and port, the table of
   * every ready session is exact: at all times, and not only right after a registration.
   */
  lemma EveryReadyTableIsExact(events: seq<Event>, sid: Sid)
    requires sid in Run(events).sessions && Run(events).sessions[sid].IsReady()
    ensures OneUse(Log(events)) ==> TableExact(Run(events), sid)
  {
    if OneUse(Log(events)) {
      AlwaysExact(events);
      ExactMeansTableExact(Run(events), Log(events), sid);
    }
  }

  lemma ExactMeansTableExact(st: Relay, log: set<Accepted>, sid: Sid)
    requires Exact(st, log) && OneUse(log) && sid in st.sessions && st.sessions[sid].IsReady()
    ensures TableExact(st, sid)
  {
    hide *;
    ExactFor(st, sid, log);
    OwnPeers(st.sessions[sid], sid, log);
    forall t, a | t in st.sessions && t != sid && a in st.sessions[t].addresses
        ensures a !in st.sessions[sid].addresses {
      ExactFor(st, t, log);
      if a in st.sessions[sid].addresses {
        OneSession(log, sid, t, a);
      }
    }
    OwnMakesExact(st, sid);
  }

  lemma OwnMakesExact(st: Relay, sid: Sid)
    requires sid in st.sessions && FourDistinct(st.sessions[sid]) && OwnTable(st.mappings, st.sessions[sid])
    requires forall t, a | t in st.sessions && t != sid && a in st.sessions[t].addresses ::
               a !in st.sessions[sid].addresses
    ensures TableExact(st, sid)
  {
    hide TargetsExact;
  }

  /** A peer's address belongs to its session only and does not spectate. */
  lemma PeerAddressIsFree(st: Relay, log: set<Accepted>, target: Target, addr: Address)
    requires Exact(st, log) && OneUse(log) && target.sid in st.sessions
    requires AlreadyPeer(st.sessions[target.sid], target.role, target.port, addr)
    ensures NothingOverwritten(st, target.sid, addr)
    ensures forall t | t in st.sessions :: !Spectates(st.sessions[t], addr)
  {
    ExactFor(st, target.sid, log);
    assert Accepted(target.sid, target.role, target.port, addr) in log;
    hide Exact, OwnTable, Grouped;
    forall t | t in st.sessions ensures t != target.sid ==> addr !in st.sessions[t].addresses
                                ensures !Spectates(st.sessions[t], addr)
    {
      ExactFor(st, t, log);
      if Spectates(st.sessions[t], addr) {
        SpectatorIsLogged(st.sessions[t], t, log, addr);
        assert false;
      }
    }
  }

  lemma SpectatorIsLogged(s: Session, sid: Sid, log: set<Accepted>, addr: Address)
    requires SessionLogged(s, sid, log) && Spectates(s, addr)
    ensures exists p :: Accepted(sid, Spectator, p, addr) in log
  {
    var i := FindByAddress(s.spectators, addr).value;
    assert PortsLogged(s.spectators[i].ports, sid, Spectator, log);
    var p :| p in s.spectators[i].ports && s.spectators[i].ports[p].addr == addr;
    assert Accepted(sid, Spectator, p, addr) in log;
  }

  /**
   * In every such run a peer of a ready session may announce itself again and again: no target
   * changes in the whole table, and no time stamp but those of streamers with spectators.
   */
  lemma RepeatedAnnouncementInRuns(events: seq<Event>, ev: Event, target: Target)
    requires ev.Announced? && Accepts(ev.role, ev.port, ev.sid, ev.store) == Some(target)
    requires target.sid in Run(events).sessions && Run(events).sessions[target.sid].IsReady()
    requires AlreadyPeer(Run(events).sessions[target.sid], target.role, target.port, ev.addr)
    ensures OneUse(Log(events)) ==>
              && TableUnchanged(Run(events).mappings, Run(events + [ev]).mappings, Run(events).sessions[target.sid])
              && TableExact(Run(events + [ev]), target.sid)
  {
    hide *;
    if OneUse(Log(events)) {
      AlwaysExact(events);
      EveryReadyTableIsExact(events, target.sid);
      PeerAddressIsFree(Run(events), Log(events), target, ev.addr);
      RepeatedAnnouncement(events, ev, target);
    }
  }
}
