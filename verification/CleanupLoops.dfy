/** How the phases of a cleanup pass are reached one session, or one role, at a time. */
module CleanupLoops {
  import opened RelayTypes
  import opened RelaySpec
  import opened TableLoops

  // ---------------------------------------------------------------- roles

  function EmptyRole(s: Session, role: Role): Session {
    var s' := s.(addresses := s.addresses - AddrsOf(PortsOf(s, role)));
    match role case Streamer => s'.(streamer := map[]) case Viewer => s'.(viewer := map[]) case Spectator => s'
  }

  /** One expired role of one session. */
  function ExpireOne(st: Relay, sid: Sid, role: Role): Relay
    requires sid in st.sessions
  {
    st.(sessions := st.sessions[sid := EmptyRole(st.sessions[sid], role)],
        mappings := st.mappings - AddrsOf(PortsOf(st.sessions[sid], role)))
  }

  type Expired = set<(Sid, Role)>

  /** The addresses of the roles of one session that are in the list. */
  function GoneFrom(s: Session, sid: Sid, expired: Expired): set<Address> {
    (if (sid, Streamer) in expired then AddrsOf(s.streamer) else {}) + (if (sid, Viewer) in expired
        then AddrsOf(s.viewer) else {})
  }

  function EmptyRoles(s: Session, sid: Sid, expired: Expired): Session {
    s.(streamer := if (sid, Streamer) in expired then map[] else s.streamer,
       viewer := if (sid, Viewer) in expired then map[] else s.viewer,
       addresses := s.addresses - GoneFrom(s, sid, expired))
  }

  function AllGone(sessions: map<Sid, Session>, expired: Expired): set<Address> {
    set sid, a | sid in sessions && a in GoneFrom(sessions[sid], sid, expired) :: a
  }

  /** All roles in the list. */
  function ExpireListed(st: Relay, expired: Expired): Relay {
    st.(sessions := map sid | sid in st.sessions :: EmptyRoles(st.sessions[sid], sid, expired),
        mappings := st.mappings - AllGone(st.sessions, expired))
  }

  lemma ExpireNone(st: Relay)
    ensures ExpireListed(st, {}) == st
  {
    forall sid | sid in st.sessions ensures EmptyRoles(st.sessions[sid], sid, {}) == st.sessions[sid] {
      assert st.sessions[sid].addresses - {} == st.sessions[sid].addresses;
    }
    assert AllGone(st.sessions, {}) == {};
  }

  lemma EmptyOneMore(s: Session, sid: Sid, expired: Expired, role: Role)
    requires (sid, role) !in expired
    ensures EmptyRole(EmptyRoles(s, sid, expired), role) == EmptyRoles(s, sid, expired + {(sid, role)})
    ensures PortsOf(EmptyRoles(s, sid, expired), role) == PortsOf(s, role)
    ensures GoneFrom(s, sid, expired + {(sid, role)}) == GoneFrom(s, sid, expired) + AddrsOf(PortsOf(s, role))
  {
    assert AddrsOf(map[]) == {};
    hide AddrsOf;
    var more := expired + {(sid, role)};
    assert GoneFrom(s, sid, more) == GoneFrom(s, sid, expired) + AddrsOf(PortsOf(s, role));
    assert s.addresses - GoneFrom(s, sid, expired) - AddrsOf(PortsOf(s, role)) == s.addresses - GoneFrom(s, sid, more);
  }

  lemma GoneOneMore(sessions: map<Sid, Session>, expired: Expired, sid: Sid, role: Role)
    requires sid in sessions && (sid, role) !in expired
    ensures AllGone(sessions, expired + {(sid, role)}) ==
              AllGone(sessions, expired) + AddrsOf(PortsOf(sessions[sid], role))
  {
    var more := expired + {(sid, role)};
    EmptyOneMore(sessions[sid], sid, expired, role);
    assert forall t | t in sessions && t != sid :: GoneFrom(sessions[t], t, more) == GoneFrom(sessions[t], t, expired);
    hide GoneFrom, AddrsOf;
    assert forall a | a in AddrsOf(PortsOf(sessions[sid], role)) :: a in GoneFrom(sessions[sid], sid, more);
    forall a ensures a in AllGone(sessions, more) <==>
        a in AllGone(sessions, expired) + AddrsOf(PortsOf(sessions[sid], role)) {
      if a in AllGone(sessions, expired) {
        var t :| t in sessions && a in GoneFrom(sessions[t], t, expired);
        assert a in GoneFrom(sessions[t], t, more);
      }
      if a in AllGone(sessions, more) {
        var t :| t in sessions && a in GoneFrom(sessions[t], t, more);
        assert t == sid || a in GoneFrom(sessions[t], t, expired);
      }
    }
  }

  lemma SameRoles(s: Session, t: Sid, expired: Expired, sid: Sid, role: Role)
    requires t != sid
    ensures EmptyRoles(s, t, expired + {(sid, role)}) == EmptyRoles(s, t, expired)
  {
    assert GoneFrom(s, t, expired + {(sid, role)}) == GoneFrom(s, t, expired);
  }

  lemma SessionsOneMore(st: Relay, expired: Expired, sid: Sid, role: Role)
    requires sid in st.sessions && (sid, role) !in expired
    ensures ExpireOne(ExpireListed(st, expired), sid, role).sessions ==
              ExpireListed(st, expired + {(sid, role)}).sessions
  {
    hide AllGone, EmptyRoles, EmptyRole, AddrsOf, GoneFrom, PortsOf;
    EmptyOneMore(st.sessions[sid], sid, expired, role);
    forall t | t in st.sessions && t != sid
      ensures EmptyRoles(st.sessions[t], t, expired + {(sid, role)}) == EmptyRoles(st.sessions[t], t, expired)
    {
      SameRoles(st.sessions[t], t, expired, sid, role);
    }
  }

  lemma ExpireOneMore(st: Relay, expired: Expired, sid: Sid, role: Role)
    requires sid in st.sessions && (sid, role) !in expired
    ensures ExpireOne(ExpireListed(st, expired), sid, role) == ExpireListed(st, expired + {(sid, role)})
  {
    hide AllGone, EmptyRoles, EmptyRole, AddrsOf, GoneFrom;
    SessionsOneMore(st, expired, sid, role);
    GoneOneMore(st.sessions, expired, sid, role);
    EmptyOneMore(st.sessions[sid], sid, expired, role);
  }

  /** The roles that a pass finds expired. */
  function ExpiredRoles(st: Relay, now: Time, timeout: Time): Expired {
    set sid, role | sid in st.sessions && role in {Streamer, Viewer}
                 && ExpiredPorts(st.mappings, st.sessions[sid], PortsOf(st.sessions[sid], role), now, timeout) != {} ::
                     (sid, role)
  }

  lemma ExpiredInSession(st: Relay, sid: Sid, now: Time, timeout: Time)
    requires sid in st.sessions
    ensures var s, expired := st.sessions[sid], ExpiredRoles(st, now, timeout);
            && EmptyRoles(s, sid, expired) == ExpireSession(st.mappings, s, now, timeout)
            && GoneFrom(s, sid, expired) == ExpiredAddresses(st.mappings, s, now, timeout)
  {
    hide PortsExpired, AddrsOf;
    var s, expired := st.sessions[sid], ExpiredRoles(st, now, timeout);
    assert ExpiredPorts(st.mappings, s, s.streamer, now, timeout) == if (sid, Streamer) in expired
        then AddrsOf(s.streamer) else {};
    assert ExpiredPorts(st.mappings, s, s.viewer, now, timeout) == if (sid, Viewer) in expired then AddrsOf(s.viewer)
        else {};
  }

  lemma ExpireAll(st: Relay, now: Time, timeout: Time)
    ensures ExpireListed(st, ExpiredRoles(st, now, timeout)) == ExpireRoles(st, now, timeout)
  {
    hide GoneFrom, EmptyRoles, ExpireSession, ExpiredAddresses, ExpiredRoles;
    forall sid | sid in st.sessions
      ensures EmptyRoles(st.sessions[sid], sid, ExpiredRoles(st, now, timeout)) ==
                ExpireSession(st.mappings, st.sessions[sid], now, timeout)
      ensures GoneFrom(st.sessions[sid], sid, ExpiredRoles(st, now, timeout)) ==
                ExpiredAddresses(st.mappings, st.sessions[sid], now, timeout)
    {
      ExpiredInSession(st, sid, now, timeout);
    }
  }

  // ---------------------------------------------------------------- inactive spectators

  /** The inactive spectators of one session. */
  function DropFrom(st: Relay, sid: Sid, now: Time, alive: set<nat>): Relay
    requires sid in st.sessions
  {
    var s := st.sessions[sid];
    var gone := InactiveAddresses(st, s, now, alive);
    if s.AllRolesEmpty() then st
    else st.(sessions := st.sessions[sid := s.(spectators := KeepActive(st, s.spectators, now, alive),
        addresses := s.addresses - gone)],
             index := st.index - gone,
             mappings := RemoveTargets(st.mappings, s.streamer, gone))
  }

  /** The addresses that leave the targets of `key` when the listed sessions have been visited. */
  function InactiveAt(st: Relay, visited: set<Sid>, key: Address, now: Time, alive: set<nat>): set<Address> {
    set sid, a | sid in visited && sid in st.sessions && key in AddrsOf(st.sessions[sid].streamer)
              && a in InactiveAddresses(st, st.sessions[sid], now, alive) :: a
  }

  function InactiveIn(st: Relay, visited: set<Sid>, now: Time, alive: set<nat>): set<Address> {
    set sid, a | sid in visited && sid in st.sessions && a in InactiveAddresses(st, st.sessions[sid], now, alive) :: a
  }

  function DropSession(st: Relay, s: Session, now: Time, alive: set<nat>): Session {
    if s.AllRolesEmpty() then s
    else s.(spectators := KeepActive(st, s.spectators, now, alive),
        addresses := s.addresses - InactiveAddresses(st, s, now, alive))
  }

  /** The inactive spectators of the listed sessions. */
  function DropListed(st: Relay, visited: set<Sid>, now: Time, alive: set<nat>): Relay {
    st.(sessions := map sid | sid in st.sessions ::
          if sid in visited then DropSession(st, st.sessions[sid], now, alive) else st.sessions[sid],
        index := st.index - InactiveIn(st, visited, now, alive),
        mappings := map key | key in st.mappings ::
          st.mappings[key].(targets := st.mappings[key].targets - InactiveAt(st, visited, key, now, alive)))
  }

  lemma DropListedKeys(st: Relay, visited: set<Sid>, now: Time, alive: set<nat>)
    ensures DropListed(st, visited, now, alive).sessions.Keys == st.sessions.Keys
  {
    hide InactiveIn, InactiveAt, DropSession;
  }

  lemma DropNone(st: Relay, now: Time, alive: set<nat>)
    ensures DropListed(st, {}, now, alive) == st
  {
    assert InactiveIn(st, {}, now, alive) == {};
    forall key | key in st.mappings
      ensures st.mappings[key].targets - InactiveAt(st, {}, key, now, alive) == st.mappings[key].targets
    {
      assert InactiveAt(st, {}, key, now, alive) == {};
    }
  }

  lemma DropAll(st: Relay, now: Time, alive: set<nat>, visited: set<Sid>)
    requires visited == st.sessions.Keys
    ensures DropListed(st, visited, now, alive) == DropInactive(st, now, alive)
  {
    hide KeepActive, InactiveAddresses, AddrsOf;
    assert InactiveIn(st, visited, now, alive) ==
      set sid, a | sid in st.sessions && a in InactiveAddresses(st, st.sessions[sid], now, alive) :: a;
    forall key ensures InactiveAt(st, visited, key, now, alive)
                       == set sid, a | sid in st.sessions && key in AddrsOf(st.sessions[sid].streamer)
                                    && a in InactiveAddresses(st, st.sessions[sid], now, alive) :: a
    {
    }
  }

  /** What counts as inactive depends on the TCP targets alone, and those do not change. */
  lemma {:induction false} SameKeepActive(st: Relay, st': Relay, spectators: seq<Entry>, now: Time, alive: set<nat>)
    requires st.tcp == st'.tcp
    ensures KeepActive(st, spectators, now, alive) == KeepActive(st', spectators, now, alive)
  {
    if spectators != [] {
      SameKeepActive(st, st', spectators[1..], now, alive);
      assert IsInactive(st, spectators[0], now, alive) == IsInactive(st', spectators[0], now, alive);
    }
  }

  lemma SameInactive(st: Relay, st': Relay, s: Session, now: Time, alive: set<nat>)
    requires st.tcp == st'.tcp
    ensures InactiveAddresses(st, s, now, alive) == InactiveAddresses(st', s, now, alive)
    ensures DropSession(st, s, now, alive) == DropSession(st', s, now, alive)
  {
    SameKeepActive(st, st', s.spectators, now, alive);
    forall e ensures IsInactive(st, e, now, alive) == IsInactive(st', e, now, alive) {}
    hide IsInactive, KeepActive;
  }

  lemma TargetsOneMore(st: Relay, visited: set<Sid>, sid: Sid, key: Address, now: Time, alive: set<nat>)
    requires sid in st.sessions && key in st.mappings
    ensures var gone := InactiveAddresses(st, st.sessions[sid], now, alive);
            var before := st.mappings[key].targets - InactiveAt(st, visited, key, now, alive);
            st.mappings[key].targets - InactiveAt(st, visited + {sid}, key, now, alive) ==
            if key in AddrsOf(st.sessions[sid].streamer) then before - gone else before
  {
    hide InactiveAddresses, AddrsOf;
    var gone := InactiveAddresses(st, st.sessions[sid], now, alive);
    assert InactiveAt(st, visited + {sid}, key, now, alive) ==
      InactiveAt(st, visited, key, now, alive) + if key in AddrsOf(st.sessions[sid].streamer) then gone else {};
  }

  lemma IndexOneMore(st: Relay, visited: set<Sid>, sid: Sid, now: Time, alive: set<nat>)
    requires sid in st.sessions
    ensures InactiveIn(st, visited + {sid}, now, alive) ==
            InactiveIn(st, visited, now, alive) + InactiveAddresses(st, st.sessions[sid], now, alive)
  {
    hide InactiveAddresses;
  }

  lemma MappingsOneMore(st: Relay, visited: set<Sid>, sid: Sid, now: Time, alive: set<nat>)
    requires sid in st.sessions
    ensures DropListed(st, visited + {sid}, now, alive).mappings ==
            RemoveTargets(DropListed(st, visited, now, alive).mappings, st.sessions[sid].streamer,
                          InactiveAddresses(st, st.sessions[sid], now, alive))
  {
    hide InactiveAddresses, AddrsOf, InactiveAt, InactiveIn, DropSession;
    forall key | key in st.mappings
      ensures var before := st.mappings[key].targets - InactiveAt(st, visited, key, now, alive);
              st.mappings[key].targets - InactiveAt(st, visited + {sid}, key, now, alive) ==
              if key in AddrsOf(st.sessions[sid].streamer)
                  then before - InactiveAddresses(st, st.sessions[sid], now, alive) else before
    {
      TargetsOneMore(st, visited, sid, key, now, alive);
    }
  }

  lemma DropOneMore(st: Relay, visited: set<Sid>, sid: Sid, now: Time, alive: set<nat>)
    requires sid in st.sessions && sid !in visited
    ensures DropFrom(DropListed(st, visited, now, alive), sid, now, alive) ==
              DropListed(st, visited + {sid}, now, alive)
  {
    hide KeepActive, InactiveAddresses, InactiveIn, InactiveAt, RemoveTargets;
    var before := DropListed(st, visited, now, alive);
    var s := st.sessions[sid];
    var gone := InactiveAddresses(st, s, now, alive);
    SameInactive(st, before, s, now, alive);
    IndexOneMore(st, visited, sid, now, alive);
    MappingsOneMore(st, visited, sid, now, alive);
    if s.AllRolesEmpty() {
      NoRolesNoGone(st, s, now, alive);
      RemoveNothing(before.mappings, s.streamer, {});
      assert InactiveIn(st, visited, now, alive) + {} == InactiveIn(st, visited, now, alive);
    }
    assert DropListed(st, visited + {sid}, now, alive).index == before.index - gone;
  }

  lemma NoRolesNoGone(st: Relay, s: Session, now: Time, alive: set<nat>)
    requires s.AllRolesEmpty()
    ensures InactiveAddresses(st, s, now, alive) == {}
  {
  }

  // ---------------------------------------------------------------- the spectators of one session, last to first

  function TouchAt(s: Session, i: nat, now: Time): Session
    requires i < |s.spectators|
  {
    s.(spectators := s.spectators[i := s.spectators[i].(lastAnnouncementAt := now)])
  }

  /** One spectator of one session: kept, refreshed, or removed. */
  function VisitOne(st: Relay, sid: Sid, i: nat, now: Time, alive: set<nat>): Relay
    requires sid in st.sessions && i < |st.sessions[sid].spectators|
  {
    var s := st.sessions[sid];
    var e := s.spectators[i];
    if now - e.lastAnnouncementAt <= SPECTATOR_TIMEOUT then st
    else if HasActiveTcp(st, e, alive) then st.(sessions := st.sessions[sid := TouchAt(s, i, now)])
    else st.(sessions := st.sessions[sid := RemoveSpectatorAt(s, i)],
             index := st.index - e.Addresses(),
             mappings := RemoveTargets(st.mappings, s.streamer, e.Addresses()))
  }

  function GoneAfter(st: Relay, spectators: seq<Entry>, i: nat, now: Time, alive: set<nat>): set<Address> {
    set k, a | i <= k < |spectators| && IsInactive(st, spectators[k], now, alive) && a in spectators[k].Addresses() :: a
  }

  /** The spectators from position `i` on have been visited. */
  function VisitedFrom(st: Relay, sid: Sid, i: nat, now: Time, alive: set<nat>): Relay
    requires sid in st.sessions && i <= |st.sessions[sid].spectators|
  {
    var s := st.sessions[sid];
    var gone := GoneAfter(st, s.spectators, i, now, alive);
    var kept := s.spectators[..i] + KeepActive(st, s.spectators[i..], now, alive);
    st.(sessions := st.sessions[sid := s.(spectators := kept, addresses := s.addresses - gone)],
        index := st.index - gone,
        mappings := RemoveTargets(st.mappings, s.streamer, gone))
  }

  lemma VisitedNone(st: Relay, sid: Sid, now: Time, alive: set<nat>)
    requires sid in st.sessions
    ensures VisitedFrom(st, sid, |st.sessions[sid].spectators|, now, alive) == st
  {
    var s := st.sessions[sid];
    assert s.spectators[|s.spectators|..] == [] && s.spectators[..|s.spectators|] + [] == s.spectators;
    assert GoneAfter(st, s.spectators, |s.spectators|, now, alive) == {};
    RemoveNothing(st.mappings, s.streamer, {});
    assert s.addresses - {} == s.addresses;
  }

  lemma VisitedAll(st: Relay, sid: Sid, now: Time, alive: set<nat>)
    requires sid in st.sessions && !st.sessions[sid].AllRolesEmpty()
    ensures VisitedFrom(st, sid, 0, now, alive) == DropFrom(st, sid, now, alive)
  {
    var s := st.sessions[sid];
    var kept := KeepActive(st, s.spectators, now, alive);
    assert s.spectators[0..] == s.spectators && [] + kept == kept;
    hide KeepActive, IsInactive;
    assert GoneAfter(st, s.spectators, 0, now, alive) == InactiveAddresses(st, s, now, alive) by {
      forall e | e in s.spectators ensures exists k :: 0 <= k < |s.spectators| && s.spectators[k] == e {}
    }
  }

  /** The list of entries after one more visit. */
  lemma EntriesOneMore(st: Relay, spectators: seq<Entry>, i: nat, now: Time, alive: set<nat>)
    requires i < |spectators|
    ensures var e := spectators[i];
            var before := spectators[..i + 1] + KeepActive(st, spectators[i + 1..], now, alive);
            var after := spectators[..i] + KeepActive(st, spectators[i..], now, alive);
            && before[i] == e
            && after == (if IsInactive(st, e, now, alive) then before[..i] + before[i + 1..]
                         else if now - e.lastAnnouncementAt > SPECTATOR_TIMEOUT
                             then before[i := e.(lastAnnouncementAt := now)]
                         else before)
  {
    assert spectators[i..][0] == spectators[i] && spectators[i..][1..] == spectators[i + 1..];
    hide IsInactive;
  }

  lemma GoneOneMoreEntry(st: Relay, spectators: seq<Entry>, i: nat, now: Time, alive: set<nat>)
    requires i < |spectators|
    ensures GoneAfter(st, spectators, i, now, alive) ==
            GoneAfter(st, spectators, i + 1, now, alive) + (if IsInactive(st, spectators[i], now, alive)
                then spectators[i].Addresses() else {})
  {
    hide IsInactive;
  }

  lemma SameConnections(a: Relay, b: Relay, e: Entry, alive: set<nat>)
    requires a.tcp == b.tcp
    ensures HasActiveTcp(a, e, alive) == HasActiveTcp(b, e, alive)
  {
  }

  lemma VisitOneMore(st: Relay, sid: Sid, i: nat, now: Time, alive: set<nat>)
    requires sid in st.sessions && i < |st.sessions[sid].spectators|
    ensures |VisitedFrom(st, sid, i + 1, now, alive).sessions[sid].spectators| > i
    ensures VisitOne(VisitedFrom(st, sid, i + 1, now, alive), sid, i, now, alive) == VisitedFrom(st, sid, i, now, alive)
  {
    hide KeepActive, GoneAfter, HasActiveTcp, RemoveTargets;
    var s := st.sessions[sid];
    var before, after := VisitedFrom(st, sid, i + 1, now, alive), VisitedFrom(st, sid, i, now, alive);
    var e := s.spectators[i];
    EntriesOneMore(st, s.spectators, i, now, alive);
    GoneOneMoreEntry(st, s.spectators, i, now, alive);
    SameConnections(st, before, e, alive);
    var gone := GoneAfter(st, s.spectators, i + 1, now, alive);
    assert before.sessions[sid].spectators[i] == e;
    if IsInactive(st, e, now, alive) {
      RemoveMore(st.mappings, s.streamer, gone, e.Addresses());
      assert s.addresses - gone - e.Addresses() == s.addresses - (gone + e.Addresses());
      assert st.index - gone - e.Addresses() == st.index - (gone + e.Addresses());
    } else {
      assert gone + {} == gone;
    }
  }

  // ---------------------------------------------------------------- sessions without roles

  /** One session without roles: its spectators leave the index, and it is dropped. */
  function DropEmptyOne(st: Relay, sid: Sid): Relay
    requires sid in st.sessions
  {
    st.(sessions := st.sessions - {sid}, order := Without(st.order, {sid}),
        index := st.index - AllAddresses(st.sessions[sid]))
  }

  function AllAddresses(s: Session): set<Address> {
    set e, a | e in s.spectators && a in e.Addresses() :: a
  }

  function EmptyAddresses(st: Relay, gone: set<Sid>): set<Address> {
    set sid, a | sid in gone && sid in st.sessions && a in AllAddresses(st.sessions[sid]) :: a
  }

  function DropEmptyListed(st: Relay, gone: set<Sid>): Relay {
    st.(sessions := st.sessions - gone, order := Without(st.order, gone), index := st.index - EmptyAddresses(st, gone))
  }

  lemma DropEmptyNone(st: Relay)
    ensures DropEmptyListed(st, {}) == st
  {
    WithoutNothing(st.order);
    assert EmptyAddresses(st, {}) == {};
  }

  lemma DropEmptyMore(st: Relay, gone: set<Sid>, sid: Sid)
    requires sid in st.sessions && sid !in gone
    ensures DropEmptyOne(DropEmptyListed(st, gone), sid) == DropEmptyListed(st, gone + {sid})
  {
    WithoutMore(st.order, gone, {sid});
    hide Without, AllAddresses;
    assert EmptyAddresses(st, gone + {sid}) == EmptyAddresses(st, gone) + AllAddresses(st.sessions[sid]);
  }

  lemma DropEmptyAll(st: Relay, gone: set<Sid>)
    requires gone == set sid | sid in st.sessions && st.sessions[sid].AllRolesEmpty()
    ensures DropEmptyListed(st, gone) == DropEmpty(st)
  {
    hide Without;
    var listed := set sid, e, a | sid in gone && e in st.sessions[sid].spectators && a in e.Addresses() :: a;
    forall a | a in EmptyAddresses(st, gone) ensures a in listed {
      var sid :| sid in gone && a in AllAddresses(st.sessions[sid]);
      var e :| e in st.sessions[sid].spectators && a in e.Addresses();
    }
    forall a | a in listed ensures a in EmptyAddresses(st, gone) {
      var sid, e :| sid in gone && e in st.sessions[sid].spectators && a in e.Addresses();
      assert a in AllAddresses(st.sessions[sid]);
    }
    assert EmptyAddresses(st, gone) == listed;
  }
}
