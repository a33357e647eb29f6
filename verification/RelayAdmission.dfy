/**
 * Which announcements the relay admits, in the words of the message: the texts of role and port,
 * and what the session store knows. Everything on record was admitted, and what is not admitted
 * registers nothing.
 */
module RelayAdmission {
  import opened RelayTypes
  import opened RelaySpec
  import opened RelaySafety
  import opened SharedAddresses
  import opened SpectatorGrouping
  import opened SpectatorIndex

  /** The announcement registers its sender in session `sid` under the given role and port. */
  predicate Admits(ev: Event, sid: Sid, role: Role, port: PortType) {
    && ev.Announced?
    && ev.port == (match port case Video => "video" case Control => "control")
    && match role
       case Streamer => ev.role == "streamer" && ev.store.exists_ && ev.sid == sid
       case Viewer => ev.role == "viewer" && ev.store.exists_ && ev.sid == sid
       case Spectator => ev.role == "spectator" && ev.store.spectated == Some(sid) && sid != ""
  }

  ghost predicate IsRefused(ev: Event) {
    ev.Announced? && forall sid, role, port :: !Admits(ev, sid, role, port)
  }

  // ---------------------------------------------------------------- the log

  lemma TargetIff(ev: Event, sid: Sid, role: Role, port: PortType)
    requires ev.Announced?
    ensures Accepts(ev.role, ev.port, ev.sid, ev.store) == Some(Target(sid, role, port)) <==>
              Admits(ev, sid, role, port)
  {
  }

  lemma LoggedByIff(ev: Event, x: Accepted)
    ensures x in LogOf(ev) <==> Admits(ev, x.sid, x.role, x.port) && ev.addr == x.addr
  {
    if ev.Announced? {
      TargetIff(ev, x.sid, x.role, x.port);
    }
    hide ParseRole, ParsePort, Accepts;
  }

  /**
   * In every run the log holds exactly what was admitted: the address announced itself with that
   * role and port, and the store knew the session then, or the id of the spectator for it.
   */
  lemma {:induction false} LogIsAdmitted(events: seq<Event>, x: Accepted)
    ensures x in Log(events) <==>
              exists i :: 0 <= i < |events| && Admits(events[i], x.sid, x.role, x.port) && events[i].addr == x.addr
  {
    if events != [] {
      var n := |events| - 1;
      LogIsAdmitted(events[..n], x);
      LoggedByIff(events[n], x);
      hide LogOf, Admits;
      if i :| 0 <= i < |events| && Admits(events[i], x.sid, x.role, x.port) && events[i].addr == x.addr {
        assert i == n || events[..n][i] == events[i];
      }
      if i :| 0 <= i < n && Admits(events[..n][i], x.sid, x.role, x.port) && events[..n][i].addr == x.addr {
        assert events[i] == events[..n][i];
      }
    }
  }

  /** So in every run the streamers, viewers and spectators on record were admitted, each with its address. */
  lemma OnRecordWasAdmitted(events: seq<Event>, sid: Sid, role: Role, port: PortType, a: Address)
    requires OnRecord(Run(events), sid, role, port, a)
    ensures exists i :: 0 <= i < |events| && Admits(events[i], sid, role, port) && events[i].addr == a
  {
    AlwaysSafe(events);
    assert SessionLogged(Run(events).sessions[sid], sid, Log(events));
    assert Accepted(sid, role, port, a) in Log(events) by {
      hide Run, Log, TableSafe;
      if role == Spectator {
        var i :| 0 <= i < |Run(events).sessions[sid].spectators|
          && HasAt(Run(events).sessions[sid].spectators[i].ports, port, a);
        assert PortsLogged(Run(events).sessions[sid].spectators[i].ports, sid, Spectator, Log(events));
      }
    }
    hide *;
    LogIsAdmitted(events, Accepted(sid, role, port, a));
  }

  predicate HasAt(ports: Ports, port: PortType, a: Address) {
    port in ports && ports[port].addr == a
  }

  /** `a` is on record in the session for the role and port. */
  predicate OnRecord(st: Relay, sid: Sid, role: Role, port: PortType, a: Address) {
    && sid in st.sessions
    && var s := st.sessions[sid];
       match role
       case Streamer => HasAt(s.streamer, port, a)
       case Viewer => HasAt(s.viewer, port, a)
       case Spectator => exists i :: 0 <= i < |s.spectators| && HasAt(s.spectators[i].ports, port, a)
  }

  /** The record of the session for the role and port is exactly `peer`. */
  predicate Holds(st: Relay, sid: Sid, role: Role, port: PortType, peer: PeerEntry) {
    && sid in st.sessions
    && var s := st.sessions[sid];
       match role
       case Streamer => port in s.streamer && s.streamer[port] == peer
       case Viewer => port in s.viewer && s.viewer[port] == peer
       case Spectator =>
         exists i :: 0 <= i < |s.spectators| && port in s.spectators[i].ports && s.spectators[i].ports[port] == peer
  }

  // ---------------------------------------------------------------- what an announcement does

  /** An admitted announcement puts its sender on record, over TCP if it has connected that way. */
  lemma AdmittedIsOnRecord(st: Relay, ev: Event, sid: Sid, role: Role, port: PortType)
    requires Admits(ev, sid, role, port)
    ensures OnRecord(Step(st, ev), sid, role, port, ev.addr)
    ensures Holds(Step(st, ev), sid, role, port, PeerEntry(ev.addr, if ev.addr in st.tcp then Tcp else Udp, ev.now))
  {
    TargetIff(ev, sid, role, port);
    var removed := RemoveSpectator(st, ev.addr);
    if role == Spectator {
      assert Step(st, ev) == RegisterSpectator(st, sid, port, ev.addr, ev.now) by {
        hide RegisterSpectator, RegisterPeer, RemoveSpectator;
      }
      hide Step;
      SpectatorOnRecord(st, sid, port, ev.addr, ev.now);
    } else {
      assert Step(st, ev) == RegisterPeer(removed, sid, role, port, ev.addr, ev.now) by {
        hide RegisterSpectator, RegisterPeer, RemoveSpectator;
      }
      assert removed.tcp == st.tcp by {
        hide RemoveTargets;
      }
      hide Step, RemoveSpectator;
      PeerOnRecord(removed, sid, role, port, ev.addr, ev.now);
    }
  }

  lemma PeerOnRecord(st: Relay, sid: Sid, role: Role, port: PortType, addr: Address, now: Time)
    requires role != Spectator
    ensures OnRecord(RegisterPeer(st, sid, role, port, addr, now), sid, role, port, addr)
    ensures Holds(RegisterPeer(st, sid, role, port, addr, now), sid, role, port,
              PeerEntry(addr, if addr in st.tcp then Tcp else Udp, now))
  {
    hide AttachSpectators, NewMappings, KeepTimestamps, Without, CompleteAddresses;
  }

  lemma SpectatorOnRecord(st: Relay, sid: Sid, port: PortType, addr: Address, now: Time)
    ensures OnRecord(RegisterSpectator(st, sid, port, addr, now), sid, Spectator, port, addr)
    ensures Holds(RegisterSpectator(st, sid, port, addr, now), sid, Spectator, port,
              PeerEntry(addr, if addr in st.tcp then Tcp else Udp, now))
  {
    hide AttachSpectators, RemoveTargets, SpectatorSlot, IndexEntry;
    var s := SetDefault(st, sid, now).sessions[sid];
    var i := SpectatorSlot(s, addr.ip, st.nextUid).0;
    var after := RegisterSpectator(st, sid, port, addr, now).sessions[sid];
    assert HasAt(after.spectators[i].ports, port, addr);
  }

  /** Sessions and table after an announcement that registers nobody: no session, peer, key or target is new. */
  ghost predicate NothingNew(st: Relay, after: Relay) {
    && after.sessions.Keys == st.sessions.Keys && after.mappings.Keys == st.mappings.Keys
    && after.tcp == st.tcp && after.order == st.order && after.index.Keys <= st.index.Keys
    && (forall a | a in after.mappings :: after.mappings[a].targets <= st.mappings[a].targets)
    && (forall a | a in after.mappings :: after.mappings[a].timestamp == st.mappings[a].timestamp)
    && (forall sid | sid in after.sessions ::
          && after.sessions[sid].streamer == st.sessions[sid].streamer
          && after.sessions[sid].viewer == st.sessions[sid].viewer
          && (forall e | e in after.sessions[sid].spectators :: e in st.sessions[sid].spectators))
  }

  /**
   * An announcement that is not admitted registers nobody. With unknown texts, and as a spectator
   * with an unknown id, it changes nothing at all; as a streamer or viewer of an unknown session it
   * still takes the spectator that its sender was off the record.
   */
  lemma RefusedRegistersNobody(st: Relay, ev: Event)
    requires IsRefused(ev)
    ensures NothingNew(st, Step(st, ev))
    ensures !(ev.role in {"streamer", "viewer"} && ev.port in {"video", "control"}) ==> Step(st, ev) == st
  {
    RefusedIsNotAccepted(ev);
    hide RegisterPeer, RegisterSpectator;
    RemovingIsNotNew(st, ev.addr);
    NotNewAtAll(st);
    hide RemoveSpectator, NothingNew;
  }

  lemma RefusedIsNotAccepted(ev: Event)
    requires IsRefused(ev)
    ensures Accepts(ev.role, ev.port, ev.sid, ev.store) == None
  {
    var target := Accepts(ev.role, ev.port, ev.sid, ev.store);
    if target.Some? {
      TargetIff(ev, target.value.sid, target.value.role, target.value.port);
    }
  }

  lemma RemovingIsNotNew(st: Relay, addr: Address)
    ensures NothingNew(st, RemoveSpectator(st, addr))
  {
  }

  lemma NotNewAtAll(st: Relay)
    ensures NothingNew(st, st)
  {
  }

  // ---------------------------------------------------------------- spectators that become peers

  predicate SpectatesIn(st: Relay, sid: Sid, a: Address) {
    && sid in st.sessions
    && exists i ::
         0 <= i < |st.sessions[sid].spectators| && a in st.sessions[sid].spectators[i].Addresses()
  }

  /**
   * Who announces itself as streamer or viewer, admitted or not, spectates no more, unless it
   * spectated several sessions; the spectators at other addresses stay.
   */
  lemma PeerStopsSpectating(st: Relay, ev: Event, sid: Sid)
    requires Inv(st) && ev.Announced? && ev.role in {"streamer", "viewer"} && ev.port in {"video", "control"}
    ensures SpectatesIn(Step(st, ev), sid, ev.addr) ==>
              SpectatesIn(st, sid, ev.addr) && exists other :: other != sid && SpectatesIn(st, other, ev.addr)
    ensures sid in st.sessions && sid in Step(st, ev).sessions ==>
              forall e | e in st.sessions[sid].spectators && ev.addr !in e.Addresses() ::
                e in Step(st, ev).sessions[sid].spectators
  {
    var removed := RemoveSpectator(st, ev.addr);
    assert forall s | s in Step(st, ev).sessions ::
        Step(st, ev).sessions[s].spectators == if s in removed.sessions then removed.sessions[s].spectators else [] by {
      SpectatorsAfterPeer(st, ev);
    }
    hide Step, Inv;
    SpectatorLeaves(st, ev.addr, sid);
    hide RemoveSpectator;
  }

  lemma SpectatorsAfterPeer(st: Relay, ev: Event)
    requires ev.Announced? && ev.role in {"streamer", "viewer"} && ev.port in {"video", "control"}
    ensures var removed := RemoveSpectator(st, ev.addr);
            forall s | s in Step(st, ev).sessions ::
              Step(st, ev).sessions[s].spectators ==
              if s in removed.sessions then removed.sessions[s].spectators else []
  {
    hide RegisterPeer, RegisterSpectator, RemoveSpectator;
    var target := Accepts(ev.role, ev.port, ev.sid, ev.store);
    if target.Some? {
      SpectatorsUntouched(RemoveSpectator(st, ev.addr), target.value.sid, target.value.role, target.value.port, ev.addr,
          ev.now);
    }
  }

  lemma SpectatorLeaves(st: Relay, addr: Address, sid: Sid)
    requires Inv(st)
    ensures SpectatesIn(RemoveSpectator(st, addr), sid, addr) ==>
              SpectatesIn(st, sid, addr) && exists other :: other != sid && SpectatesIn(st, other, addr)
    ensures sid in st.sessions ==>
              && sid in RemoveSpectator(st, addr).sessions
              && forall e | e in st.sessions[sid].spectators && addr !in e.Addresses() ::
                   e in RemoveSpectator(st, addr).sessions[sid].spectators
  {
    hide RemoveTargets, Grouped;
    match FirstSpectated(st.sessions, st.order, addr)
    case None =>
      if SpectatesIn(st, sid, addr) {
        SpectatesIsFound(st, sid, addr);
      }
    case Some(first) =>
      var s := st.sessions[first];
      var i := FindByAddress(s.spectators, addr).value;
      assert SpectatesIn(st, first, addr);
      NobodyElse(s.spectators, i, addr);
  }

  lemma SpectatesIsFound(st: Relay, sid: Sid, addr: Address)
    requires SpectatesIn(st, sid, addr)
    ensures Spectates(st.sessions[sid], addr)
  {
  }

  lemma NobodyElse(spectators: seq<Entry>, i: nat, addr: Address)
    requires Grouped(spectators) && i < |spectators| && addr in spectators[i].Addresses()
    ensures var rest := spectators[..i] + spectators[i + 1..];
            && (forall e | e in rest :: addr !in e.Addresses())
            && (forall e | e in spectators && addr !in e.Addresses() :: e in rest)
  {
    var rest := spectators[..i] + spectators[i + 1..];
    forall e | e in rest ensures addr !in e.Addresses() {
      var k :| 0 <= k < |rest| && rest[k] == e;
      assert spectators[if k < i then k else k + 1] == e;
    }
    forall e | e in spectators && addr !in e.Addresses() ensures e in rest {
      var k :| 0 <= k < |spectators| && spectators[k] == e;
      assert rest[if k < i then k else k - 1] == e;
    }
  }
}
