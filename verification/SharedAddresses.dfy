/**
 * Heartbeats of an address that may spectate several sessions. In every run, exactly when the
 * index lookup does what a scan of all sessions would do.
 */
module SharedAddresses {
  import opened RelayTypes
  import opened RelaySpec
  import opened SpectatorGrouping
  import opened SpectatorIndex

  // ---------------------------------------------------------------- identities

  /** Live entries are different objects, and newer ones get higher numbers. */
  ghost predicate DifferentObjects(st: Relay) {
    && (forall s, i | Live(st, s, i) :: At(st, s, i).uid < st.nextUid)
    && (forall s, i, t, j | Live(st, s, i) && Live(st, t, j) && At(st, s, i).uid == At(st, t, j).uid ::
        s == t && i == j)
  }

  predicate AllDifferent(entries: seq<Entry>) {
    forall i, j | 0 <= i < j < |entries| :: entries[i].uid != entries[j].uid
  }

  predicate HasUid(entries: seq<Entry>, uid: nat) {
    exists i | 0 <= i < |entries| :: entries[i].uid == uid
  }

  /** Entries may go or change, but none comes or is doubled. */
  ghost predicate Shrunk(before: seq<Entry>, after: seq<Entry>) {
    && (AllDifferent(before) ==> AllDifferent(after))
    && (forall i | 0 <= i < |after| :: HasUid(before, after[i].uid))
  }

  lemma ShrinkingKeepsObjects(st: Relay, after: Relay)
    requires DifferentObjects(st) && st.nextUid <= after.nextUid
    requires forall s | s in after.sessions ::
               if s in st.sessions then Shrunk(st.sessions[s].spectators, after.sessions[s].spectators)
               else after.sessions[s].spectators == []
    ensures DifferentObjects(after)
  {
    forall s, i | Live(after, s, i) ensures s in st.sessions && HasUid(st.sessions[s].spectators, At(after, s, i).uid) {
    }
    forall s, i | Live(after, s, i) ensures At(after, s, i).uid < after.nextUid {
      var _ := LiveUid(st, s, At(after, s, i).uid);
    }
    forall s, i, t, j | Live(after, s, i) && Live(after, t, j) && At(after, s, i).uid == At(after, t, j).uid
        ensures s == t && i == j {
      var a := LiveUid(st, s, At(after, s, i).uid);
      var b := LiveUid(st, t, At(after, t, j).uid);
      assert s == t;
      DifferentInSession(st, s);
      assert AllDifferent(after.sessions[s].spectators);
    }
  }

  lemma LiveUid(st: Relay, s: Sid, uid: nat) returns (i: nat)
    requires s in st.sessions && HasUid(st.sessions[s].spectators, uid)
    ensures Live(st, s, i) && At(st, s, i).uid == uid
  {
    i :| 0 <= i < |st.sessions[s].spectators| && st.sessions[s].spectators[i].uid == uid;
  }

  lemma DifferentInSession(st: Relay, s: Sid)
    requires DifferentObjects(st) && s in st.sessions
    ensures AllDifferent(st.sessions[s].spectators)
  {
    var entries := st.sessions[s].spectators;
    forall i, j | 0 <= i < j < |entries| ensures entries[i].uid != entries[j].uid {
      assert Live(st, s, i) && Live(st, s, j) && At(st, s, i) == entries[i] && At(st, s, j) == entries[j];
    }
  }

  lemma SameUidsShrink(before: seq<Entry>, after: seq<Entry>)
    requires |before| == |after| && forall i | 0 <= i < |after| :: after[i].uid == before[i].uid
    ensures Shrunk(before, after)
  {
  }

  lemma RemovalShrinks(entries: seq<Entry>, k: nat)
    requires k < |entries|
    ensures Shrunk(entries, entries[..k] + entries[k + 1..])
  {
    var after := entries[..k] + entries[k + 1..];
    forall i | 0 <= i < |after| ensures after[i] == entries[if i < k then i else i + 1]
        && HasUid(entries, after[i].uid) {
    }
  }

  lemma {:induction false} KeepingShrinks(st: Relay, entries: seq<Entry>, now: Time, alive: set<nat>)
    ensures Shrunk(entries, KeepActive(st, entries, now, alive))
  {
    if entries != [] {
      hide IsInactive;
      var rest := KeepActive(st, entries[1..], now, alive);
      var after := KeepActive(st, entries, now, alive);
      KeepingShrinks(st, entries[1..], now, alive);
      TailUids(entries);
      assert after == rest || (|after| == |rest| + 1 && after[1..] == rest && after[0].uid == entries[0].uid);
      hide KeepActive;
      if after == rest {
      } else {
        PrependShrinks(entries, after);
      }
    }
  }

  lemma TailUids(entries: seq<Entry>)
    requires entries != []
    ensures AllDifferent(entries) ==> AllDifferent(entries[1..])
    ensures forall uid | HasUid(entries[1..], uid) :: HasUid(entries, uid)
    ensures AllDifferent(entries) ==> !HasUid(entries[1..], entries[0].uid)
    ensures HasUid(entries, entries[0].uid)
  {
    forall uid | HasUid(entries[1..], uid) ensures HasUid(entries, uid) {
      var i :| 0 <= i < |entries| - 1 && entries[1..][i].uid == uid;
      assert entries[i + 1].uid == uid;
    }
  }

  lemma PrependShrinks(entries: seq<Entry>, after: seq<Entry>)
    requires entries != [] && after != [] && after[0].uid == entries[0].uid && Shrunk(entries[1..], after[1..])
    ensures Shrunk(entries, after)
  {
    TailUids(entries);
    forall i | 0 < i < |after| ensures after[i] == after[1..][i - 1] && HasUid(entries[1..], after[i].uid) {
    }
  }

  lemma RemovingKeepsObjects(st: Relay, addr: Address)
    requires DifferentObjects(st)
    ensures DifferentObjects(RemoveSpectator(st, addr))
  {
    hide DifferentObjects, RemoveTargets, Shrunk;
    var after := RemoveSpectator(st, addr);
    forall s | s in after.sessions ensures Shrunk(st.sessions[s].spectators, after.sessions[s].spectators) {
      if after.sessions[s] == st.sessions[s] {
        SameUidsShrink(st.sessions[s].spectators, after.sessions[s].spectators);
      } else {
        RemovalShrinks(st.sessions[s].spectators, FindByAddress(st.sessions[s].spectators, addr).value);
      }
    }
    ShrinkingKeepsObjects(st, after);
  }

  lemma SpectatorsUntouched(st: Relay, sid: Sid, role: Role, port: PortType, addr: Address, now: Time)
    requires role != Spectator
    ensures var after := RegisterPeer(st, sid, role, port, addr, now);
            && after.nextUid == st.nextUid
            && forall s | s in after.sessions ::
                 after.sessions[s].spectators == if s in st.sessions then st.sessions[s].spectators else []
  {
    RecordedSpectators(st, sid, role, port, addr, now);
    hide RecordPeer, AttachSpectators, KeepTimestamps, NewMappings, Overwritten, Without, CompleteAddresses;
  }

  lemma RecordedSpectators(st: Relay, sid: Sid, role: Role, port: PortType, addr: Address, now: Time)
    requires role != Spectator
    ensures var st2 := RecordPeer(st, sid, role, port, addr, now);
            && sid in st2.sessions && st2.nextUid == st.nextUid
            && forall s | s in st2.sessions ::
                 st2.sessions[s].spectators == if s in st.sessions then st.sessions[s].spectators else []
  {
  }

  lemma RegisterPeerKeepsObjects(st: Relay, sid: Sid, role: Role, port: PortType, addr: Address, now: Time)
    requires DifferentObjects(st) && role != Spectator
    ensures DifferentObjects(RegisterPeer(st, sid, role, port, addr, now))
  {
    hide DifferentObjects, Shrunk, RegisterPeer;
    var after := RegisterPeer(st, sid, role, port, addr, now);
    SpectatorsUntouched(st, sid, role, port, addr, now);
    forall s | s in after.sessions && s in st.sessions
        ensures Shrunk(st.sessions[s].spectators, after.sessions[s].spectators) {
      SameUidsShrink(st.sessions[s].spectators, after.sessions[s].spectators);
    }
    ShrinkingKeepsObjects(st, after);
  }

  /** A spectator's announcement changes one entry, or adds one with a new number. */
  lemma JoiningUids(s: Session, port: PortType, peer: PeerEntry, uid: nat)
    ensures var after := RegisterSpectatorPort(s, port, peer, uid).0.spectators;
            && |s.spectators| <= |after| <= |s.spectators| + 1
            && (forall i | 0 <= i < |s.spectators| :: after[i].uid == s.spectators[i].uid)
            && (|after| > |s.spectators| ==> after[|s.spectators|].uid == uid)
  {
    hide SpectatorSlot;
  }

  lemma JoiningEntries(st: Relay, sid: Sid, port: PortType, addr: Address, now: Time)
    ensures var st1, after := SetDefault(st, sid, now), RegisterSpectator(st, sid, port, addr, now);
            && after.nextUid == st.nextUid + 1
            && sid in after.sessions && after.sessions == st1.sessions[sid := after.sessions[sid]]
            && var was, joined := st1.sessions[sid].spectators, after.sessions[sid].spectators;
            && |was| <= |joined| <= |was| + 1
            && (forall i | 0 <= i < |was| :: joined[i].uid == was[i].uid)
            && (|joined| > |was| ==> joined[|was|].uid == st.nextUid)
            && (sid !in st.sessions ==> was == [])
  {
    var st1 := SetDefault(st, sid, now);
    JoiningUids(st1.sessions[sid], port, PeerEntry(addr, if addr in st.tcp then Tcp else Udp, now), st.nextUid);
    hide RegisterSpectatorPort, AttachSpectators, RemoveTargets, IndexEntry;
  }

  lemma RegisterSpectatorKeepsObjects(st: Relay, sid: Sid, port: PortType, addr: Address, now: Time)
    requires DifferentObjects(st)
    ensures DifferentObjects(RegisterSpectator(st, sid, port, addr, now))
  {
    JoiningEntries(st, sid, port, addr, now);
    hide RegisterSpectator;
    var after := RegisterSpectator(st, sid, port, addr, now);
    forall s, i | Live(after, s, i)
      ensures if Live(st, s, i) then At(after, s, i).uid == At(st, s, i).uid
                else s == sid && At(after, s, i).uid == st.nextUid
      ensures !Live(st, s, i) ==> i == |SetDefault(st, sid, now).sessions[sid].spectators|
    {
    }
  }

  lemma CleanupKeepsObjects(st: Relay, now: Time, timeout: Time, alive: set<nat>)
    requires DifferentObjects(st)
    ensures DifferentObjects(Cleanup(st, now, timeout, alive))
  {
    hide DifferentObjects, Shrunk, KeepActive, InactiveAddresses, ExpiredPorts, Without;
    var expired := ExpireRoles(DropDeadTargets(st, alive), now, timeout);
    var after := Cleanup(st, now, timeout, alive);
    assert after.nextUid == st.nextUid;
    forall s | s in after.sessions ensures s in st.sessions
        && Shrunk(st.sessions[s].spectators, after.sessions[s].spectators) {
      var entries := st.sessions[s].spectators;
      assert expired.sessions[s].spectators == entries;
      if after.sessions[s].spectators == entries {
        SameUidsShrink(entries, entries);
      } else {
        KeepingShrinks(expired, entries, now, alive);
      }
    }
    ShrinkingKeepsObjects(st, after);
  }

  lemma HeartbeatKeepsObjects(st: Relay, addr: Address, now: Time)
    requires DifferentObjects(st)
    ensures DifferentObjects(Heartbeat(st, addr, now))
  {
    hide DifferentObjects, Shrunk;
    var after := Heartbeat(st, addr, now);
    forall s | s in after.sessions ensures s in st.sessions
        && Shrunk(st.sessions[s].spectators, after.sessions[s].spectators) {
      SameUidsShrink(st.sessions[s].spectators, after.sessions[s].spectators);
    }
    ShrinkingKeepsObjects(st, after);
  }

  lemma StepKeepsObjects(st: Relay, ev: Event)
    requires DifferentObjects(st)
    ensures DifferentObjects(Step(st, ev))
  {
    hide DifferentObjects, RemoveSpectator, RegisterPeer, RegisterSpectator, Cleanup, Heartbeat;
    match ev
    case Announced(role, port, sid, addr, store, now) =>
      RemovingKeepsObjects(st, addr);
      match Accepts(role, port, sid, store) {
        case None =>
        case Some(Target(actual, Spectator, p)) => RegisterSpectatorKeepsObjects(st, actual, p, addr, now);
        case Some(Target(actual, r, p)) => RegisterPeerKeepsObjects(RemoveSpectator(st, addr), actual, r, p, addr, now);
      }
    case StrayPacket(addr, now) => HeartbeatKeepsObjects(st, addr, now);
    case CleanupPass(now, timeout, alive) => CleanupKeepsObjects(st, now, timeout, alive);
    case _ => SameSpectatorsSameObjects(st, Step(st, ev));
  }

  lemma SameSpectatorsSameObjects(st: Relay, after: Relay)
    requires DifferentObjects(st) && after.sessions == st.sessions && after.nextUid == st.nextUid
    ensures DifferentObjects(after)
  {
    forall s, i | Live(after, s, i) ensures Live(st, s, i) && At(after, s, i) == At(st, s, i) {
    }
  }

  /** In every run the live entries are different objects. */
  lemma {:induction false} AlwaysDifferent(events: seq<Event>)
    ensures DifferentObjects(Run(events))
  {
    if events != [] {
      AlwaysDifferent(events[..|events| - 1]);
      StepKeepsObjects(Run(events[..|events| - 1]), events[|events| - 1]);
    }
  }

  // ---------------------------------------------------------------- lookup and scan

  /** All live entries were refreshed before `now`. */
  ghost predicate LaterThanAll(st: Relay, now: Time) {
    forall s, i | Live(st, s, i) :: At(st, s, i).lastAnnouncementAt < now
  }

  /** The index stands for a live entry under `addr` exactly if the scan finds one, and for that one. */
  ghost predicate PointsToFirst(st: Relay, addr: Address) {
    match FirstSpectated(st.sessions, st.order, addr)
    case None => addr in st.index ==> forall s, i | Live(st, s, i) :: At(st, s, i).uid != st.index[addr]
    case Some(sid) =>
      addr in st.index &&
      st.index[addr] == st.sessions[sid].spectators[FindByAddress(st.sessions[sid].spectators, addr).value].uid
  }

  /** What a heartbeat does when the index stands for one live entry: it refreshes just that one. */
  lemma HeartbeatTouches(st: Relay, addr: Address, sid: Sid, i: nat, now: Time)
    requires DifferentObjects(st) && Live(st, sid, i) && addr in st.index && st.index[addr] == At(st, sid, i).uid
    ensures Heartbeat(st, addr, now) == st.(sessions := st.sessions[sid := TouchEntry(st.sessions[sid], i, now)])
  {
    var uid := st.index[addr];
    forall s | s in st.sessions
      ensures TouchSessions(st.sessions, uid, now)[s] == if s == sid then TouchEntry(st.sessions[s], i, now)
                else st.sessions[s]
    {
      var entries := st.sessions[s].spectators;
      forall k: nat | k < |entries| ensures entries[k].uid == uid <==> k == (if s == sid then i else |entries|) {
        assert Live(st, s, k) && At(st, s, k) == entries[k];
      }
      TouchOne(entries, uid, if s == sid then i else |entries|, now);
    }
  }

  lemma HeartbeatTouchesNone(st: Relay, addr: Address, now: Time)
    requires addr in st.index ==> forall s, i | Live(st, s, i) :: At(st, s, i).uid != st.index[addr]
    ensures Heartbeat(st, addr, now) == st
  {
    if addr in st.index {
      forall s | s in st.sessions ensures TouchSessions(st.sessions, st.index[addr], now)[s] == st.sessions[s] {
        var entries := st.sessions[s].spectators;
        forall k: nat | k < |entries| ensures entries[k].uid != st.index[addr] {
          assert Live(st, s, k) && At(st, s, k) == entries[k];
        }
        TouchOne(entries, st.index[addr], |entries|, now);
      }
    }
  }

  /** Refreshing two entries gives the same state only if they are the same entry. */
  lemma TouchingIsInjective(st: Relay, s: Sid, i: nat, t: Sid, j: nat, now: Time)
    requires Live(st, s, i) && Live(st, t, j) && LaterThanAll(st, now)
    ensures (st.sessions[s := TouchEntry(st.sessions[s], i, now)] ==
             st.sessions[t := TouchEntry(st.sessions[t], j, now)]) <==> s == t && i == j
    ensures st.sessions[s := TouchEntry(st.sessions[s], i, now)] != st.sessions
  {
    var a, b := st.sessions[s := TouchEntry(st.sessions[s], i, now)],
        st.sessions[t := TouchEntry(st.sessions[t], j, now)];
    assert At(st, s, i).lastAnnouncementAt < now;
    assert a[s].spectators[i].lastAnnouncementAt == now;
    assert st.sessions[s].spectators[i] == At(st, s, i);
    assert !(s == t && i == j) ==> b[s].spectators[i] == At(st, s, i);
  }

  /** Whatever was announced: lookup and scan agree if and only if the index points to what the scan finds. */
  lemma LookupEqualsScanIff(st: Relay, addr: Address, now: Time)
    requires DifferentObjects(st) && LaterThanAll(st, now)
    ensures Heartbeat(st, addr, now) == ScanHeartbeat(st, addr, now) <==> PointsToFirst(st, addr)
  {
    hide DifferentObjects, LaterThanAll, FirstSpectated, FindByAddress, TouchSessions;
    var found := FirstSpectated(st.sessions, st.order, addr);
    if found.Some? {
      var t := found.value;
      var j := FindByAddress(st.sessions[t].spectators, addr).value;
      assert Live(st, t, j) && At(st, t, j) == st.sessions[t].spectators[j];
      TouchingIsInjective(st, t, j, t, j, now);
    }
    if addr in st.index && exists s, i :: Live(st, s, i) && At(st, s, i).uid == st.index[addr] {
      var s, i :| Live(st, s, i) && At(st, s, i).uid == st.index[addr];
      HeartbeatTouches(st, addr, s, i, now);
      TouchingIsInjective(st, s, i, s, i, now);
      if found.Some? {
        var t := found.value;
        var j := FindByAddress(st.sessions[t].spectators, addr).value;
        TouchingIsInjective(st, s, i, t, j, now);
        OneUser(st, s, i, t, j);
      }
    } else {
      HeartbeatTouchesNone(st, addr, now);
    }
  }

  lemma OneUser(st: Relay, s: Sid, i: nat, t: Sid, j: nat)
    requires DifferentObjects(st) && Live(st, s, i) && Live(st, t, j)
    ensures At(st, s, i).uid == At(st, t, j).uid <==> s == t && i == j
  {
  }

  /** The same for every run, with no assumption about what is announced. */
  lemma LookupEqualsScanInRuns(events: seq<Event>, addr: Address, now: Time)
    ensures LaterThanAll(Run(events), now) ==>
              (Heartbeat(Run(events), addr, now) == ScanHeartbeat(Run(events), addr, now) <==>
                  PointsToFirst(Run(events), addr))
  {
    hide *;
    AlwaysDifferent(events);
    if LaterThanAll(Run(events), now) {
      LookupEqualsScanIff(Run(events), addr, now);
    }
  }

  // ---------------------------------------------------------------- after an announcement

  /** The announced address spectates afterwards. */
  lemma AnnouncedSpectates(s: Session, port: PortType, peer: PeerEntry, uid: nat)
    ensures Spectates(RegisterSpectatorPort(s, port, peer, uid).0, peer.addr)
  {
    hide SpectatorSlot;
    var after := RegisterSpectatorPort(s, port, peer, uid).0;
    var i := SpectatorSlot(s, peer.addr.ip, uid).0;
    assert port in after.spectators[i].ports && after.spectators[i].ports[port] == peer;
    assert peer.addr in after.spectators[i].Addresses();
  }

  /** The announced address is in the index, for the entry that a lookup in its session finds. */
  lemma AnnouncedIsIndexed(st: Relay, sid: Sid, port: PortType, addr: Address, now: Time)
    ensures var after := RegisterSpectator(st, sid, port, addr, now);
            && sid in after.sessions && sid in after.sessions.Keys && Spectates(after.sessions[sid], addr)
            && addr in after.index
            && after.index[addr] == after.sessions[sid].spectators[FindByAddress(after.sessions[sid].spectators,
                addr).value].uid
  {
    var st1 := SetDefault(st, sid, now);
    AnnouncedSpectates(st1.sessions[sid], port, PeerEntry(addr, if addr in st.tcp then Tcp else Udp, now), st.nextUid);
    hide RegisterSpectatorPort, AttachSpectators, RemoveTargets, FindByAddress;
  }

  /** The index points to the entry of `sid`, so it points to what the scan finds exactly if that is in `sid`. */
  lemma PointsToOwn(st: Relay, sid: Sid, addr: Address)
    requires Inv(st) && DifferentObjects(st) && sid in st.sessions && Spectates(st.sessions[sid], addr)
    requires addr in st.index
    requires st.index[addr] == st.sessions[sid].spectators[FindByAddress(st.sessions[sid].spectators, addr).value].uid
    ensures PointsToFirst(st, addr) <==> FirstSpectated(st.sessions, st.order, addr) == Some(sid)
  {
    hide FindByAddress, FirstSpectated, DifferentObjects;
    var found := FirstSpectated(st.sessions, st.order, addr);
    assert sid in st.order;
    assert found.Some?;
    var t := found.value;
    var i := FindByAddress(st.sessions[sid].spectators, addr).value;
    var j := FindByAddress(st.sessions[t].spectators, addr).value;
    assert Live(st, sid, i) && Live(st, t, j);
    OneUser(st, sid, i, t, j);
  }

  /**
   * An address may spectate several sessions. Right after an announcement in any run, its
   * heartbeat does what a scan would do if and only if the session it announced itself to is
   * the first in which it spectates.
   */
  lemma LastAnnouncementWins(events: seq<Event>, ev: Event, target: Target, later: Time)
    requires ev.Announced? && Accepts(ev.role, ev.port, ev.sid, ev.store) == Some(target) && target.role == Spectator
    ensures var after := Run(events + [ev]);
            LaterThanAll(after, later) ==>
              (Heartbeat(after, ev.addr, later) == ScanHeartbeat(after, ev.addr, later) <==>
               FirstSpectated(after.sessions, after.order, ev.addr) == Some(target.sid))
  {
    hide *;
    var st, after := Run(events), Run(events + [ev]);
    AlwaysDifferent(events + [ev]);
    AlwaysGrouped(events + [ev]);
    OneMoreAnnouncement(events, ev, target);
    AnnouncedIsIndexed(st, target.sid, target.port, ev.addr, ev.now);
    PointsToOwn(after, target.sid, ev.addr);
    if LaterThanAll(after, later) {
      LookupEqualsScanIff(after, ev.addr, later);
    }
  }

  lemma OneMoreAnnouncement(events: seq<Event>, ev: Event, target: Target)
    requires ev.Announced? && Accepts(ev.role, ev.port, ev.sid, ev.store) == Some(target) && target.role == Spectator
    ensures Run(events + [ev]) == RegisterSpectator(Run(events), target.sid, target.port, ev.addr, ev.now)
  {
    hide RegisterSpectator, RemoveSpectator;
    assert (events + [ev])[..|events|] == events;
  }

  // ---------------------------------------------------------------- a run in which they differ

  const HOME := Address("192.0.2.1", 5000)

  /** `HOME` announces its video port as a spectator of the given session. */
  function Spectating(sid: Sid, now: Time): Event {
    Announced("spectator", "video", "id", HOME, StoreAnswer(false, Some(sid)), now)
  }

  /** The first announcement of an address in a session that the relay does not know yet */
  lemma FirstAnnouncement(st: Relay, sid: Sid, addr: Address, now: Time)
    requires sid !in st.sessions
    ensures var after := RegisterSpectator(st, sid, Video, addr, now);
            && after.order == st.order + [sid]
            && after.sessions.Keys == st.sessions.Keys + {sid}
            && (forall s | s in st.sessions :: after.sessions[s] == st.sessions[s])
            && |after.sessions[sid].spectators| == 1
            && after.sessions[sid].spectators[0].lastAnnouncementAt == now
  {
    hide AttachSpectators, RemoveTargets, IndexEntry;
  }

  lemma SpectatingIsAccepted(sid: Sid, now: Time)
    requires sid != ""
    ensures var ev := Spectating(sid, now);
            && ev.Announced? && ev.addr == HOME && ev.now == now
            && Accepts(ev.role, ev.port, ev.sid, ev.store) == Some(Target(sid, Spectator, Video))
  {
  }

  lemma NoEventsYet()
    ensures Run([]) == START && START.order == [] && START.sessions == map[]
  {
  }

  /** Two announcements to two sessions: the heartbeat refreshes the second session only, the scan the first. */
  lemma TwoSessionsDiffer(first: Sid, second: Sid)
    requires first != second && first != "" && second != ""
    ensures var st := Run([Spectating(first, 1.0), Spectating(second, 2.0)]);
            && Heartbeat(st, HOME, 3.0) != ScanHeartbeat(st, HOME, 3.0)
            && FirstSpectated(st.sessions, st.order, HOME) == Some(first)
  {
    hide *;
    var a, b := Spectating(first, 1.0), Spectating(second, 2.0);
    assert [] + [a] == [a] && [a] + [b] == [a, b];
    SpectatingIsAccepted(first, 1.0);
    SpectatingIsAccepted(second, 2.0);
    OneMoreAnnouncement([], a, Target(first, Spectator, Video));
    OneMoreAnnouncement([a], b, Target(second, Spectator, Video));
    NoEventsYet();
    var one, two := Run([a]), Run([a, b]);
    FirstAnnouncement(START, first, HOME, 1.0);
    AnnouncedIsIndexed(START, first, Video, HOME, 1.0);
    FirstAnnouncement(one, second, HOME, 2.0);
    assert two.order == [first] + [second] && two.sessions.Keys == {first, second};
    assert two.sessions[first] == one.sessions[first];
    FirstInOrder(two, first, second);
    TimesOfTwo(two, first, second);
    LastAnnouncementWins([a], b, Target(second, Spectator, Video), 3.0);
  }

  lemma FirstInOrder(st: Relay, first: Sid, second: Sid)
    requires st.order == [first, second] && first in st.sessions && Spectates(st.sessions[first], HOME)
    ensures FirstSpectated(st.sessions, st.order, HOME) == Some(first)
  {
  }

  lemma TimesOfTwo(st: Relay, first: Sid, second: Sid)
    requires st.sessions.Keys == {first, second}
    requires forall s | s in st.sessions ::
               |st.sessions[s].spectators| == 1 && st.sessions[s].spectators[0].lastAnnouncementAt < 3.0
    ensures LaterThanAll(st, 3.0)
  {
  }
}
