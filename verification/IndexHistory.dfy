/**
 * The spectator index as a function of what was announced. In every run the index has an address
 * exactly if it announced itself as a spectator and was not removed since, and stands for the
 * session of its last announcement. So the history says when the index and a scan agree.
 */
module IndexHistory {
  import opened RelayTypes
  import opened RelaySpec
  import opened RelayCleanup
  import opened SpectatorGrouping
  import opened SpectatorIndex
  import opened SharedAddresses
  import opened RelayLeftovers

  // ---------------------------------------------------------------- history

  predicate SpectatorAccepted(ev: Event) {
    ev.Announced?
    && var target := Accepts(ev.role, ev.port, ev.sid, ev.store);
       target.Some? && target.value.role == Spectator
  }

  function SessionJoined(ev: Event): Sid
    requires SpectatorAccepted(ev)
  {
    Accepts(ev.role, ev.port, ev.sid, ev.store).value.sid
  }

  function PortJoined(ev: Event): PortType
    requires SpectatorAccepted(ev)
  {
    Accepts(ev.role, ev.port, ev.sid, ev.store).value.port
  }

  /** A streamer or viewer announces itself, accepted or not. */
  predicate PeerAnnounced(ev: Event) {
    ev.Announced? && ParseRole(ev.role).Some? && ParsePort(ev.port).Some? && ParseRole(ev.role).value != Spectator
  }

  /** The addresses of the spectator that goes when `addr` announces itself as a peer */
  function GoesWith(st: Relay, addr: Address): set<Address> {
    match FirstSpectated(st.sessions, st.order, addr)
    case None => {}
    case Some(sid) =>
      var entries := st.sessions[sid].spectators;
      entries[FindByAddress(entries, addr).value].Addresses()
  }

  /** The event takes `x` out of the index: it is replaced, or its spectator is removed or expires. */
  ghost predicate Unindexes(st: Relay, ev: Event, x: Address) {
    if SpectatorAccepted(ev) then x in SpectatorJoins(st, SessionJoined(ev), PortJoined(ev), ev.addr, ev.now).1
    else if PeerAnnounced(ev) then x in GoesWith(st, ev.addr)
    else ev.CleanupPass? && LeavesIndex(DropDeadTargets(st, ev.alive), x, ev.now, ev.timeout, ev.alive)
  }

  /** The session of the last announcement of `x` as a spectator, if it was not removed since */
  ghost function LastJoined(events: seq<Event>, x: Address): Option<Sid> {
    if events == [] then None
    else
      var n := |events| - 1;
      NowJoined(Run(events[..n]), events[n], x, LastJoined(events[..n], x))
  }

  ghost function NowJoined(st: Relay, ev: Event, x: Address, last: Option<Sid>): Option<Sid> {
    if SpectatorAccepted(ev) && ev.addr == x then Some(SessionJoined(ev))
    else if Unindexes(st, ev, x) then None
    else last
  }

  // ---------------------------------------------------------------- what the index stands for

  /** The index has `x` if it joined, and then stands for the entry of that session that uses it. */
  ghost predicate Follows(st: Relay, x: Address, last: Option<Sid>) {
    && (x in st.index <==> last.Some?)
    && (last.Some? ==> st.index[x] < st.nextUid)
    && (last.Some? ==> forall s, i | Live(st, s, i) ::
          At(st, s, i).uid == st.index[x] <==> s == last.value && x in At(st, s, i).Addresses())
  }

  /** An entry of `s` had the same number, and used `x` or not as `e` does; or `e` is new and does not use `x`. */
  ghost predicate Was(st: Relay, s: Sid, e: Entry, x: Address) {
    || (e.uid >= st.nextUid && x !in e.Addresses())
    || exists j :: Live(st, s, j) && At(st, s, j).uid == e.uid && (x in At(st, s, j).Addresses() <==>
        x in e.Addresses())
  }

  /** Entries may go, and others than those of `x` may change. */
  lemma FollowsOn(st: Relay, after: Relay, x: Address, last: Option<Sid>)
    requires Follows(st, x, last) && st.nextUid <= after.nextUid
    requires x in st.index <==> x in after.index
    requires x in st.index ==> after.index[x] == st.index[x]
    requires forall s, i | Live(after, s, i) :: Was(st, s, At(after, s, i), x)
    ensures Follows(after, x, last)
  {
  }

  lemma GoneFromIndex(after: Relay, x: Address)
    requires x !in after.index
    ensures Follows(after, x, None)
  {
  }

  // ---------------------------------------------------------------- every step

  lemma WasAlways(st: Relay, s: Sid, e: Entry, x: Address, j: nat)
    requires Live(st, s, j) && At(st, s, j).uid == e.uid && At(st, s, j).ports == e.ports
    ensures Was(st, s, e, x)
  {
  }

  lemma RemovingFollows(st: Relay, addr: Address, x: Address, last: Option<Sid>)
    requires Follows(st, x, last)
    ensures Follows(RemoveSpectator(st, addr), x, if x in GoesWith(st, addr) then None else last)
  {
    var after := RemoveSpectator(st, addr);
    hide Follows, Was, RemoveTargets;
    assert after.nextUid == st.nextUid && after.index == st.index - GoesWith(st, addr);
    if x in GoesWith(st, addr) {
      GoneFromIndex(after, x);
    } else {
      forall s, i | Live(after, s, i) ensures Was(st, s, At(after, s, i), x) {
        var j := RemovedFrom(st, addr, s, i);
        WasAlways(st, s, At(after, s, i), x, j);
      }
      FollowsOn(st, after, x, last);
    }
  }

  /** Where an entry was before a spectator was removed */
  lemma RemovedFrom(st: Relay, addr: Address, s: Sid, i: nat) returns (j: nat)
    requires Live(RemoveSpectator(st, addr), s, i)
    ensures Live(st, s, j) && At(st, s, j) == At(RemoveSpectator(st, addr), s, i)
  {
    hide RemoveTargets;
    var found := FirstSpectated(st.sessions, st.order, addr);
    j := i;
    if found == Some(s) && i >= FindByAddress(st.sessions[s].spectators, addr).value {
      j := i + 1;
    }
  }

  lemma RegisteringFollows(st: Relay, sid: Sid, role: Role, port: PortType, addr: Address, now: Time, x: Address,
      last: Option<Sid>)
    requires Follows(st, x, last) && role != Spectator
    ensures Follows(RegisterPeer(st, sid, role, port, addr, now), x, last)
  {
    var after := RegisterPeer(st, sid, role, port, addr, now);
    SpectatorsUntouched(st, sid, role, port, addr, now);
    KeysAfterRegistration(st, sid, role, port, addr, now);
    hide RegisterPeer, RecordPeer, Follows, Was, Overwritten;
    forall s, i | Live(after, s, i) ensures Was(st, s, At(after, s, i), x) {
      WasAlways(st, s, At(after, s, i), x, i);
    }
    FollowsOn(st, after, x, last);
  }

  lemma HeartbeatFollows(st: Relay, addr: Address, now: Time, x: Address, last: Option<Sid>)
    requires Follows(st, x, last)
    ensures Follows(Heartbeat(st, addr, now), x, last)
  {
    var after := Heartbeat(st, addr, now);
    hide Follows, Was;
    forall s, i | Live(after, s, i) ensures Was(st, s, At(after, s, i), x) {
      WasAlways(st, s, At(after, s, i), x, i);
    }
    FollowsOn(st, after, x, last);
  }

  lemma CleaningFollows(st: Relay, now: Time, timeout: Time, alive: set<nat>, x: Address, last: Option<Sid>)
    requires Follows(st, x, last)
    ensures Follows(Cleanup(st, now, timeout, alive), x,
                    if LeavesIndex(DropDeadTargets(st, alive), x, now, timeout, alive) then None else last)
  {
    var after := Cleanup(st, now, timeout, alive);
    NumbersKept(st, now, timeout, alive);
    IndexAfterCleanup(st, x, now, timeout, alive);
    hide Follows, Was, Cleanup, LeavesIndex, DropDeadTargets;
    if LeavesIndex(DropDeadTargets(st, alive), x, now, timeout, alive) {
      GoneFromIndex(after, x);
    } else {
      forall s, i | Live(after, s, i) ensures Was(st, s, At(after, s, i), x) {
        var j := CleanedFrom(st, now, timeout, alive, s, i);
        WasAlways(st, s, At(after, s, i), x, j);
      }
      FollowsOn(st, after, x, last);
    }
  }

  lemma NumbersKept(st: Relay, now: Time, timeout: Time, alive: set<nat>)
    ensures Cleanup(st, now, timeout, alive).nextUid == st.nextUid
  {
    hide ExpireSession, ExpiredAddresses, KeepActive, InactiveAddresses, Without;
  }

  /** Where an entry that stays was before the pass */
  lemma CleanedFrom(st: Relay, now: Time, timeout: Time, alive: set<nat>, s: Sid, i: nat) returns (j: nat)
    requires Live(Cleanup(st, now, timeout, alive), s, i)
    ensures var e := At(Cleanup(st, now, timeout, alive), s, i);
            Live(st, s, j) && At(st, s, j).uid == e.uid && At(st, s, j).ports == e.ports
  {
    var tcp, after := DropDeadTargets(st, alive), Cleanup(st, now, timeout, alive);
    CleanupExactly(st, now, timeout, alive);
    OnlyTargetsDropped(st, alive);
    KeepIsFilter(tcp, st.sessions[s].spectators, now, alive);
    hide Cleanup, DropDeadTargets, Survives, Remaining, MappingCleaned, KeepActive, Filtered;
    assert SessionCleaned(tcp, tcp.sessions[s], after.sessions[s], now, timeout, alive);
    j := KeptFrom(tcp, st.sessions[s].spectators, now, alive, i);
  }

  /** The announcing address itself is indexed under the entry of its session that uses it. */
  lemma JoiningIsFollowed(st: Relay, sid: Sid, port: PortType, x: Address, now: Time)
    requires Inv(st) && DifferentObjects(st)
    ensures Follows(RegisterSpectator(st, sid, port, x, now), x, Some(sid))
  {
    var after := RegisterSpectator(st, sid, port, x, now);
    AnnouncedIsIndexed(st, sid, port, x, now);
    RegisterSpectatorKeeps(st, sid, port, x, now);
    RegisterSpectatorKeepsObjects(st, sid, port, x, now);
    hide RegisterSpectator, FindByAddress, Inv, DifferentObjects;
    var i := FindByAddress(after.sessions[sid].spectators, x).value;
    assert Live(after, sid, i) && after.index[x] == At(after, sid, i).uid && x in At(after, sid, i).Addresses();
    forall s, k: nat | Live(after, s, k)
      ensures At(after, s, k).uid == after.index[x] <==> s == sid && x in At(after, s, k).Addresses()
    {
      OneUser(after, s, k, sid, i);
      if s == sid && x in At(after, s, k).Addresses() {
        SessionIsGrouped(after, sid);
        LookupIsUnambiguous(after.sessions[sid].spectators, k, x);
      }
    }
    NumbersAreSmall(after, sid, i);
  }

  lemma SessionIsGrouped(st: Relay, sid: Sid)
    requires Inv(st) && sid in st.sessions
    ensures Grouped(st.sessions[sid].spectators)
  {
  }

  lemma NumbersAreSmall(st: Relay, s: Sid, i: nat)
    requires DifferentObjects(st) && Live(st, s, i)
    ensures At(st, s, i).uid < st.nextUid
  {
  }

  /** The entry that another address joins uses `x` as before, unless `x` is what it gives up. */
  lemma OthersUse(ports: Ports, port: PortType, peer: PeerEntry, x: Address)
    requires x != peer.addr && Replaced(ports, port, peer.addr) != Some(x)
    ensures x in AddrsOf(ports[port := peer]) <==> x in AddrsOf(ports)
  {
    var after := ports[port := peer];
    if x in AddrsOf(ports) {
      var p :| p in ports && ports[p].addr == x;
      assert p in after && after[p].addr == x;
    }
    if x in AddrsOf(after) {
      var p :| p in after && after[p].addr == x;
      assert p in ports && ports[p].addr == x;
    }
  }

  lemma EntriesWere(s: Session, port: PortType, peer: PeerEntry, uid: nat, x: Address, i: nat)
    requires x != peer.addr && RegisterSpectatorPort(s, port, peer, uid).1 != Some(x)
    requires i < |RegisterSpectatorPort(s, port, peer, uid).0.spectators|
    ensures var e := RegisterSpectatorPort(s, port, peer, uid).0.spectators[i];
            if i < |s.spectators| then
              e.uid == s.spectators[i].uid && (x in e.Addresses() <==> x in s.spectators[i].Addresses())
            else
              e.uid == uid && x !in e.Addresses()
  {
    var (k, was) := SpectatorSlot(s, peer.addr.ip, uid);
    OthersUse(was.ports, port, peer, x);
    hide SpectatorSlot, Replaced, AddrsOf;
    NoPorts(x);
  }

  lemma NoPorts(x: Address)
    ensures x !in AddrsOf(map[])
  {
  }

  /** Another address joins. */
  lemma JoiningFollows(st: Relay, sid: Sid, port: PortType, addr: Address, now: Time, x: Address, last: Option<Sid>)
    requires Follows(st, x, last) && addr != x
    ensures Follows(RegisterSpectator(st, sid, port, addr, now), x,
                    if x in SpectatorJoins(st, sid, port, addr, now).1 then None else last)
  {
    var after := RegisterSpectator(st, sid, port, addr, now);
    IndexAfterJoining(st, sid, port, addr, now, x);
    if x in SpectatorJoins(st, sid, port, addr, now).1 {
      GoneFromIndex(after, x);
    } else {
      EntriesAfterJoining(st, sid, port, addr, now, x);
      hide *;
      FollowsOn(st, after, x, last);
    }
  }

  lemma IndexAfterJoining(st: Relay, sid: Sid, port: PortType, addr: Address, now: Time, x: Address)
    requires addr != x
    ensures var after, gone := RegisterSpectator(st, sid, port, addr, now), SpectatorJoins(st, sid, port, addr, now).1;
            && after.nextUid == st.nextUid + 1
            && (x in after.index <==> x in st.index && x !in gone)
            && (x in after.index ==> after.index[x] == st.index[x])
  {
    hide SpectatorJoins, RemoveTargets, AttachSpectators;
  }

  lemma EntriesAfterJoining(st: Relay, sid: Sid, port: PortType, addr: Address, now: Time, x: Address)
    requires addr != x && x !in SpectatorJoins(st, sid, port, addr, now).1
    ensures var after := RegisterSpectator(st, sid, port, addr, now);
            forall s, i | Live(after, s, i) :: Was(st, s, At(after, s, i), x)
  {
    var st1, after := SetDefault(st, sid, now), RegisterSpectator(st, sid, port, addr, now);
    var peer := PeerEntry(addr, if addr in st.tcp then Tcp else Udp, now);
    var joined := RegisterSpectatorPort(st1.sessions[sid], port, peer, st.nextUid).0;
    assert after.sessions == st1.sessions[sid := joined] by {
      hide RegisterSpectatorPort, RemoveTargets, AttachSpectators;
    }
    hide RegisterSpectator, RegisterSpectatorPort, AddrsOf;
    forall s, i: nat | Live(after, s, i) ensures Was(st, s, At(after, s, i), x) {
      if s == sid {
        EntriesWere(st1.sessions[sid], port, peer, st.nextUid, x, i);
        if i < |st1.sessions[sid].spectators| {
          assert Live(st, s, i) && At(st, s, i) == st1.sessions[sid].spectators[i];
        }
      } else {
        assert Live(st, s, i);
      }
    }
  }

  lemma StepFollows(st: Relay, ev: Event, x: Address, last: Option<Sid>)
    requires Inv(st) && DifferentObjects(st) && Follows(st, x, last)
    ensures Follows(Step(st, ev), x, NowJoined(st, ev, x, last))
  {
    hide Inv, DifferentObjects, Follows, RemoveSpectator, RegisterSpectator, RegisterPeer, Cleanup, Heartbeat,
         SpectatorJoins, GoesWith, LeavesIndex, DropDeadTargets;
    match ev
    case Announced(role, port, sid, addr, store, now) => AnnouncementFollows(st, ev, x, last);
    case TcpConnected(addr, target) => SameEntriesFollow(st, Step(st, ev), x, last);
    case DataPacket(addr, now) => SameEntriesFollow(st, Step(st, ev), x, last);
    case StrayPacket(addr, now) => HeartbeatFollows(st, addr, now, x, last);
    case CleanupPass(now, timeout, alive) => CleaningFollows(st, now, timeout, alive, x, last);
  }

  lemma SameEntriesFollow(st: Relay, after: Relay, x: Address, last: Option<Sid>)
    requires Follows(st, x, last)
    requires after.sessions == st.sessions && after.index == st.index && after.nextUid == st.nextUid
    ensures Follows(after, x, last)
  {
    forall s, i | Live(after, s, i) ensures Live(st, s, i) && At(after, s, i) == At(st, s, i) {
    }
  }

  lemma AnnouncementFollows(st: Relay, ev: Event, x: Address, last: Option<Sid>)
    requires Inv(st) && DifferentObjects(st) && Follows(st, x, last) && ev.Announced?
    ensures Follows(Step(st, ev), x, NowJoined(st, ev, x, last))
  {
    hide Inv, DifferentObjects, Follows, RemoveSpectator, RegisterSpectator, RegisterPeer, SpectatorJoins, GoesWith,
         ParseRole, ParsePort;
    if SpectatorAccepted(ev) {
      if ev.addr == x {
        JoiningIsFollowed(st, SessionJoined(ev), PortJoined(ev), x, ev.now);
      } else {
        JoiningFollows(st, SessionJoined(ev), PortJoined(ev), ev.addr, ev.now, x, last);
      }
    } else if PeerAnnounced(ev) {
      RemovingFollows(st, ev.addr, x, last);
      var removed, target := RemoveSpectator(st, ev.addr), Accepts(ev.role, ev.port, ev.sid, ev.store);
      if target.Some? {
        RegisteringFollows(removed, target.value.sid, target.value.role, target.value.port, ev.addr, ev.now, x,
                           NowJoined(st, ev, x, last));
      }
    }
  }

  // ---------------------------------------------------------------- runs

  lemma {:induction false} AlwaysFollows(events: seq<Event>, x: Address)
    ensures Follows(Run(events), x, LastJoined(events, x))
  {
    if events != [] {
      var n := |events| - 1;
      AlwaysFollows(events[..n], x);
      AlwaysGrouped(events[..n]);
      AlwaysDifferent(events[..n]);
      hide Inv, DifferentObjects, Follows, NowJoined, Step;
      StepFollows(Run(events[..n]), events[n], x, LastJoined(events[..n], x));
    }
  }

  /**
   * In every run, whatever is announced: a later heartbeat does what a scan would do if and only if
   * the first session in which the address spectates, if there is one, is the session of its last
   * announcement, and it was not removed since.
   */
  lemma AgreeIff(events: seq<Event>, x: Address, later: Time)
    ensures var st, last := Run(events), LastJoined(events, x);
            LaterThanAll(st, later) ==>
              (Heartbeat(st, x, later) == ScanHeartbeat(st, x, later) <==>
               var first := FirstSpectated(st.sessions, st.order, x); first == None || first == last)
  {
    hide *;
    AlwaysFollows(events, x);
    AlwaysGrouped(events);
    LookupEqualsScanInRuns(events, x, later);
    PointsWhereJoined(Run(events), x, LastJoined(events, x));
  }

  lemma PointsWhereJoined(st: Relay, x: Address, last: Option<Sid>)
    requires Inv(st) && Follows(st, x, last)
    ensures var first := FirstSpectated(st.sessions, st.order, x);
            PointsToFirst(st, x) <==> first == None || first == last
  {
    hide FindByAddress, FirstSpectated, Grouped;
    var first := FirstSpectated(st.sessions, st.order, x);
    if first.Some? {
      var i := FindByAddress(st.sessions[first.value].spectators, x).value;
      assert Live(st, first.value, i) && At(st, first.value, i) == st.sessions[first.value].spectators[i];
    } else if last.Some? && last.value in st.sessions {
      assert !Spectates(st.sessions[last.value], x);
    }
  }

  /** In every run an index entry stands for nobody exactly if the session joined last is gone or has lost it. */
  lemma StaleInRuns(events: seq<Event>, x: Address)
    ensures var st, last := Run(events), LastJoined(events, x);
            StaleInIndex(st, x) <==>
              last.Some? && !(last.value in st.sessions && Spectates(st.sessions[last.value], x))
  {
    hide *;
    AlwaysFollows(events, x);
    StaleMeans(Run(events), x, LastJoined(events, x));
  }

  lemma StaleMeans(st: Relay, x: Address, last: Option<Sid>)
    requires Follows(st, x, last)
    ensures StaleInIndex(st, x) <==> last.Some? && !(last.value in st.sessions && Spectates(st.sessions[last.value], x))
  {
    hide FindByAddress;
    if last.Some? && last.value in st.sessions && Spectates(st.sessions[last.value], x) {
      var i := FindByAddress(st.sessions[last.value].spectators, x).value;
      assert Live(st, last.value, i) && x in At(st, last.value, i).Addresses();
    }
  }
}
